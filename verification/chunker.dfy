/**
 * The chunking step of the pipeline: the loaded review list is cut into
 * consecutive slices of a fixed size, at most a fixed number of them, and each
 * slice is dumped to data-chunks/<base>_chunk_<n>.json with n counted from 1.
 * The main script uses 10 reviews per chunk and at most 9 chunks; the
 * sentiment script repeats the same loop with 25 and 2.
 */
module Chunker {
  import opened Text
  import opened Json
  import opened Listing

  const ReviewsPerChunk: nat := 10
  const MaxChunks: nat := 9
  const SentimentReviewsPerChunk: nat := 25
  const SentimentMaxChunks: nat := 2
  const ChunkDir: string := "data-chunks"

  /** One json.dump of the loop: the path written and the reviews it holds. */
  datatype ChunkFile = ChunkFile(path: string, reviews: seq<Value>)

  function Min(a: int, b: int): (m: int)
    ensures m <= a && m <= b && (m == a || m == b)
  {
    if a <= b then a else b
  }

  lemma MulMonotone(a: nat, b: nat, c: nat)
    requires a <= b
    ensures a * c <= b * c
  {
  }

  /**
   * (count + size - 1) // size: the least number of slices of `size` that
   * hold `count` items, that is ceil(count / size).
   */
  function TotalChunks(count: nat, size: nat): (n: nat)
    requires size > 0
    ensures n * size >= count
    ensures n == 0 || (n - 1) * size < count
    ensures n == 0 <==> count == 0
  {
    var n := (count + size - 1) / size;
    var r := (count + size - 1) % size;
    assert n * size + r == count + size - 1;
    assert (n - 1) * size == n * size - size;
    n
  }

  /** The number of chunks the loop writes: range(min(NUM_CHUNKS, total_chunks)). */
  function ChunkCount(count: nat, size: nat, cap: nat): (n: nat)
    requires size > 0
    ensures n <= cap && n <= TotalChunks(count, size)
    ensures n == cap || n == TotalChunks(count, size)
  {
    Min(cap, TotalChunks(count, size))
  }

  /** Chunk i (from 0) starts inside the list whenever i is below the chunk total. */
  lemma StartInside(count: nat, size: nat, i: nat)
    requires size > 0 && i < TotalChunks(count, size)
    ensures i * size < count
  {
    MulMonotone(i, TotalChunks(count, size) - 1, size);
  }

  /**
   * reviews_data[i*S : min((i+1)*S, len)]: a non-empty slice of at most S
   * reviews, shorter than S only when it reaches the end of the list.
   */
  function Chunk(records: seq<Value>, size: nat, i: nat): (c: seq<Value>)
    requires size > 0 && i < TotalChunks(|records|, size)
    ensures 0 < |c| <= size
    ensures |c| < size ==> i * size + |c| == |records|
    ensures i * size + |c| <= |records|
    ensures forall k :: 0 <= k < |c| ==> c[k] == records[i * size + k]
  {
    StartInside(|records|, size, i);
    records[i * size .. Min((i + 1) * size, |records|)]
  }

  /** Only the last chunk of all ceil(L/S) chunks can be short. */
  lemma OnlyLastShort(records: seq<Value>, size: nat, i: nat)
    requires size > 0 && i + 1 < TotalChunks(|records|, size)
    ensures |Chunk(records, size, i)| == size
  {
    StartInside(|records|, size, i + 1);
  }

  /** f"{base_name}_chunk_{chunk_number}.json" */
  function ChunkName(chunkNumber: nat, baseName: string): (name: string)
    ensures |name| == |baseName| + 12 + |NatToDecimal(chunkNumber)|
    ensures HasPrefix(name, baseName + "_chunk_") && HasSuffix(name, ".json")
    ensures name[|baseName| + 7..|name| - 5] == NatToDecimal(chunkNumber)
  {
    baseName + "_chunk_" + NatToDecimal(chunkNumber) + ".json"
  }

  /** create_chunk_filename: the chunk's name inside data-chunks. */
  function ChunkPath(chunkNumber: nat, baseName: string): (p: string)
    ensures HasPrefix(p, "data-chunks/") && p[12..] == ChunkName(chunkNumber, baseName)
  {
    PathJoin(ChunkDir, ChunkName(chunkNumber, baseName))
  }

  /** The concatenation of a list of slices. */
  function Concat(cs: seq<seq<Value>>): (r: seq<Value>)
  {
    if cs == [] then [] else Concat(cs[..|cs| - 1]) + cs[|cs| - 1]
  }

  /** The first n chunks, in order. */
  function Chunks(records: seq<Value>, size: nat, n: nat): (cs: seq<seq<Value>>)
    requires size > 0 && n <= TotalChunks(|records|, size)
    ensures |cs| == n
    ensures forall i :: 0 <= i < n ==> cs[i] == Chunk(records, size, i)
  {
    seq(n, i requires 0 <= i < n => Chunk(records, size, i))
  }

  /** The first n chunks, put back together, are exactly the first min(L, n*S) records. */
  lemma {:induction false} ChunksCoverPrefix(records: seq<Value>, size: nat, n: nat)
    requires size > 0 && n <= TotalChunks(|records|, size)
    ensures Min(|records|, n * size) <= |records|
    ensures Concat(Chunks(records, size, n)) == records[..Min(|records|, n * size)]
  {
    if n > 0 {
      ChunksCoverPrefix(records, size, n - 1);
      LastChunk(records, size, n);
    }
  }

  /** Chunk n - 1 continues the records right where the first n - 1 chunks stop. */
  lemma LastChunk(records: seq<Value>, size: nat, n: nat)
    requires size > 0 && 0 < n <= TotalChunks(|records|, size)
    requires Concat(Chunks(records, size, n - 1)) == records[..Min(|records|, (n - 1) * size)]
    ensures Concat(Chunks(records, size, n)) == records[..Min(|records|, n * size)]
  {
    var cs := Chunks(records, size, n);
    var c := Chunk(records, size, n - 1);
    assert cs[..n - 1] == Chunks(records, size, n - 1);
    assert Concat(cs) == Concat(Chunks(records, size, n - 1)) + c;
    ChunkStop(records, size, n);
    PrefixExtend(records, (n - 1) * size, c);
  }

  /** Chunk n - 1 starts inside the records and ends at min(L, n*S). */
  lemma ChunkStop(records: seq<Value>, size: nat, n: nat)
    requires size > 0 && 0 < n <= TotalChunks(|records|, size)
    ensures (n - 1) * size == Min(|records|, (n - 1) * size)
    ensures (n - 1) * size + |Chunk(records, size, n - 1)| == Min(|records|, n * size)
  {
    StartInside(|records|, size, n - 1);
    assert (n - 1) * size == n * size - size;
  }

  /** A run of the records that starts at `start` extends the prefix ending there. */
  lemma PrefixExtend(records: seq<Value>, start: nat, c: seq<Value>)
    requires start + |c| <= |records|
    requires forall k :: 0 <= k < |c| ==> c[k] == records[start + k]
    ensures records[..start + |c|] == records[..start] + c
  {
  }

  /**
   * What the loop writes altogether: the first min(L, M*S) records, in order,
   * whether the cap or the end of the list stops it.
   */
  lemma WrittenCoverPrefix(records: seq<Value>, size: nat, cap: nat)
    requires size > 0
    ensures Min(|records|, cap * size) <= |records|
    ensures Concat(Chunks(records, size, ChunkCount(|records|, size, cap))) == records[..Min(|records|, cap * size)]
  {
    var total := TotalChunks(|records|, size);
    var n := ChunkCount(|records|, size, cap);
    ChunksCoverPrefix(records, size, n);
    if n != cap {
      MulMonotone(total, cap, size);
    }
  }

  /**
   * The chunk loop: for i in range(min(NUM_CHUNKS, total_chunks)) it slices
   * the list and dumps the slice to the path of chunk number i + 1. The dumps
   * are returned in the order they happen.
   */
  method WriteChunks(records: seq<Value>, baseName: string, size: nat, cap: nat) returns (written: seq<ChunkFile>)
    requires size > 0
    ensures |written| == ChunkCount(|records|, size, cap)
    ensures forall i :: 0 <= i < |written| ==>
      written[i].path == ChunkPath(i + 1, baseName) && written[i].reviews == Chunk(records, size, i)
  {
    var totalChunks := (|records| + size - 1) / size;
    var n := Min(cap, totalChunks);
    written := [];
    var i := 0;
    while i < n
      invariant 0 <= i <= n
      invariant |written| == i
      invariant forall j :: 0 <= j < i ==>
        written[j].path == ChunkPath(j + 1, baseName) && written[j].reviews == Chunk(records, size, j)
    {
      var startIdx := i * size;
      var endIdx := Min((i + 1) * size, |records|);
      StartInside(|records|, size, i);
      var chunkReviews := records[startIdx..endIdx];
      var chunkFilename := ChunkPath(i + 1, baseName);
      written := written + [ChunkFile(chunkFilename, chunkReviews)];
      i := i + 1;
    }
  }

  /** The reviews of the dumps, in the order written. */
  function WrittenReviews(written: seq<ChunkFile>): (cs: seq<seq<Value>>)
    ensures |cs| == |written| && forall i :: 0 <= i < |written| ==> cs[i] == written[i].reviews
  {
    seq(|written|, i requires 0 <= i < |written| => written[i].reviews)
  }

  /** main.py's loop: chunks of 10 reviews, at most 9 of them, covering the first 90 reviews. */
  method ChunkReviews(records: seq<Value>, baseName: string) returns (written: seq<ChunkFile>)
    ensures |written| == Min(MaxChunks, TotalChunks(|records|, ReviewsPerChunk)) <= 9
    ensures forall i :: 0 <= i < |written| ==> 0 < |written[i].reviews| <= 10
    ensures Concat(WrittenReviews(written)) == records[..Min(|records|, 90)]
  {
    written := WriteChunks(records, baseName, ReviewsPerChunk, MaxChunks);
    assert WrittenReviews(written) == Chunks(records, ReviewsPerChunk, |written|);
    WrittenCoverPrefix(records, ReviewsPerChunk, MaxChunks);
  }

  /** sentiment.py's copy of the loop: chunks of 25 reviews, at most 2, covering the first 50 reviews. */
  method SentimentChunkReviews(records: seq<Value>, baseName: string) returns (written: seq<ChunkFile>)
    ensures |written| == Min(SentimentMaxChunks, TotalChunks(|records|, SentimentReviewsPerChunk)) <= 2
    ensures forall i :: 0 <= i < |written| ==> 0 < |written[i].reviews| <= 25
    ensures Concat(WrittenReviews(written)) == records[..Min(|records|, 50)]
  {
    written := WriteChunks(records, baseName, SentimentReviewsPerChunk, SentimentMaxChunks);
    assert WrittenReviews(written) == Chunks(records, SentimentReviewsPerChunk, |written|);
    WrittenCoverPrefix(records, SentimentReviewsPerChunk, SentimentMaxChunks);
  }

  /**
   * Chunk names with one-digit numbers sort in chunk order: names a < b in
   * 1..9 differ first at the digit.
   */
  lemma SingleDigitNamesOrdered(baseName: string, a: nat, b: nat)
    requires 1 <= a < b <= 9
    ensures LexLt(ChunkName(a, baseName), ChunkName(b, baseName))
  {
    var prefix := baseName + "_chunk_";
    var x, y := ChunkName(a, baseName), ChunkName(b, baseName);
    assert x == prefix + [DigitChar(a)] + ".json";
    assert y == prefix + [DigitChar(b)] + ".json";
    assert x[..|prefix|] == prefix == y[..|prefix|];
    LexLtAtFirstDifference(x, y, |prefix|);
  }

  /** str(10) and str(2). */
  lemma TenAndTwo()
    ensures NatToDecimal(10) == "10" && NatToDecimal(2) == "2"
  {
  }

  /** From the tenth chunk on the order breaks: chunk 10's name sorts before chunk 2's. */
  lemma TenthSortsBeforeSecond(baseName: string)
    ensures LexLt(ChunkName(10, baseName), ChunkName(2, baseName))
  {
    var prefix := baseName + "_chunk_";
    var x, y := ChunkName(10, baseName), ChunkName(2, baseName);
    TenAndTwo();
    assert x == prefix + "10.json";
    assert y == prefix + "2.json";
    assert x[..|prefix|] == prefix == y[..|prefix|];
    LexLtAtFirstDifference(x, y, |prefix|);
  }

  /** The names of chunks 1..n, in chunk order. */
  function ChunkNames(baseName: string, n: nat): (names: seq<string>)
    ensures |names| == n && forall i :: 0 <= i < n ==> names[i] == ChunkName(i + 1, baseName)
  {
    seq(n, i requires 0 <= i < n => ChunkName(i + 1, baseName))
  }

  /**
   * With at most 9 chunks, sorting the chunk names in any listed order gives
   * them back in chunk order, so a later sorted() pass reads chunk 1 first.
   */
  lemma SortedNamesInChunkOrder(baseName: string, n: nat, listing: seq<string>)
    requires n <= 9
    requires multiset(listing) == multiset(ChunkNames(baseName, n))
    ensures Sort(listing) == ChunkNames(baseName, n)
  {
    ChunkNamesSorted(baseName, n);
    SortedUnique(Sort(listing), ChunkNames(baseName, n));
  }

  /** The names of at most 9 chunks, in chunk order, are sorted. */
  lemma ChunkNamesSorted(baseName: string, n: nat)
    requires n <= 9
    ensures Sorted(ChunkNames(baseName, n))
  {
    var names := ChunkNames(baseName, n);
    forall i, j | 0 <= i < j < n ensures LexLe(names[i], names[j]) {
      SingleDigitNamesOrdered(baseName, i + 1, j + 1);
    }
  }
}
