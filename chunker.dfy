/**
 * The text chunker of contrag-core (context_builder.rs, `chunk_text` and
 * `find_word_boundary`): overlapping chunks of at most `chunk_size`
 * characters, each end pulled back to just after the last whitespace or
 * sentence mark within 50 characters before it.
 *
 * The loop advances only while each chunk ends more than `overlap` past its
 * start; `Progresses` states exactly that along the run, and `ChunkText`
 * requires it. `ProgressesWhenWindowFits` shows that it holds for every text
 * when `overlap + 50 <= chunk_size`.
 */
module Chunker {
  import opened Types
  import opened Strings
  import opened Config

  /** How far back `find_word_boundary` looks. */
  const Lookback: nat := 50

  /** `a.saturating_sub(b)` on `usize`. */
  function SatSub(a: nat, b: nat): nat {
    if a >= b then a - b else 0
  }

  function Min(a: nat, b: nat): nat {
    if a <= b then a else b
  }

  /** The characters a chunk may end after. */
  predicate IsBoundaryChar(c: char) {
    IsWhitespace(c) || c == '.' || c == '!' || c == '?' || c == '\n'
  }

  /**
   * The scan of `find_word_boundary` over `[lo, hi)`, from the top down:
   * just after the highest boundary character, or `dflt` when there is none.
   */
  function BoundaryBelow(text: string, lo: nat, hi: nat, dflt: nat): nat
    decreases hi
  {
    if hi <= lo then dflt
    else if hi - 1 < |text| && IsBoundaryChar(text[hi - 1]) then hi
    else BoundaryBelow(text, lo, hi - 1, dflt)
  }

  /** `find_word_boundary(text, pos)`. */
  function WordBoundary(text: string, pos: nat): nat {
    BoundaryBelow(text, SatSub(pos, Lookback), pos, pos)
  }

  method FindWordBoundary(text: string, pos: nat) returns (r: nat)
    ensures r == WordBoundary(text, pos)
  {
    var lo := if pos >= Lookback then pos - Lookback else 0;
    var i := pos;
    while i > lo
      invariant lo <= i <= pos
      invariant WordBoundary(text, pos) == BoundaryBelow(text, lo, i, pos)
    {
      i := i - 1;
      if i < |text| && IsBoundaryChar(text[i]) {
        return i + 1;
      }
    }
    return pos;
  }

  /** Some boundary character sits in `[lo, hi)`. */
  predicate HasBoundary(text: string, lo: nat, hi: nat) {
    exists i :: lo <= i < hi && i < |text| && IsBoundaryChar(text[i])
  }

  lemma {:induction false} BoundaryBelowSpec(text: string, lo: nat, hi: nat, dflt: nat)
    ensures var r := BoundaryBelow(text, lo, hi, dflt);
      (HasBoundary(text, lo, hi) ==>
        lo < r <= hi && r - 1 < |text| && IsBoundaryChar(text[r - 1])
        && forall j :: r <= j < hi && j < |text| ==> !IsBoundaryChar(text[j]))
      && (!HasBoundary(text, lo, hi) ==> r == dflt)
    decreases hi
  {
    if hi > lo && !(hi - 1 < |text| && IsBoundaryChar(text[hi - 1])) {
      BoundaryBelowSpec(text, lo, hi - 1, dflt);
      if HasBoundary(text, lo, hi) {
        var i :| lo <= i < hi && i < |text| && IsBoundaryChar(text[i]);
        assert i < hi - 1;
      }
      if HasBoundary(text, lo, hi - 1) {
        var i :| lo <= i < hi - 1 && i < |text| && IsBoundaryChar(text[i]);
      }
    }
  }

  /**
   * `find_word_boundary(text, pos)` is one past the highest boundary
   * character in the 50 characters before `pos`, or `pos` itself when there
   * is none; so it never exceeds `pos`.
   */
  lemma WordBoundarySpec(text: string, pos: nat)
    ensures var lo := SatSub(pos, Lookback);
      var r := WordBoundary(text, pos);
      r <= pos
      && (HasBoundary(text, lo, pos) ==>
        lo < r && r - 1 < |text| && IsBoundaryChar(text[r - 1])
        && forall j :: r <= j < pos && j < |text| ==> !IsBoundaryChar(text[j]))
      && (!HasBoundary(text, lo, pos) ==> r == pos)
  {
    BoundaryBelowSpec(text, SatSub(pos, Lookback), pos, pos);
  }

  // ---------------------------------------------------------------------
  // chunk_text

  /** Where the chunk starting at `start` ends (`actual_end`). */
  function ChunkEnd(text: string, chunkSize: nat, start: nat): nat {
    var end := Min(start + chunkSize, |text|);
    if end < |text| then WordBoundary(text, end) else end
  }

  /**
   * From `start` on, every chunk that is not the last ends more than
   * `overlap` past its own start, so the next start is later.
   */
  predicate Progresses(text: string, chunkSize: nat, overlap: nat, start: nat)
    decreases |text| - start
  {
    start >= |text|
    || var e := ChunkEnd(text, chunkSize, start);
       e >= |text| || (e > start + overlap && Progresses(text, chunkSize, overlap, e - overlap))
  }

  lemma ChunkEndBounds(text: string, chunkSize: nat, start: nat)
    ensures ChunkEnd(text, chunkSize, start) <= Min(start + chunkSize, |text|)
    ensures Min(start + chunkSize, |text|) < |text| ==>
      ChunkEnd(text, chunkSize, start) + Lookback > start + chunkSize
  {
    WordBoundarySpec(text, Min(start + chunkSize, |text|));
  }

  /** The chunks from `start` on, numbered from `idx`: the `while` loop of `chunk_text`. */
  function ChunksFrom(text: string, chunkSize: nat, overlap: nat, start: nat, idx: nat): seq<TextChunk>
    requires Progresses(text, chunkSize, overlap, start)
    decreases |text| - start
  {
    if start >= |text| then []
    else
      var e := ChunkEnd(text, chunkSize, start);
      ChunkEndBounds(text, chunkSize, start);
      var c := TextChunk(text[start..e], start, e, idx);
      if e >= |text| then [c]
      else [c] + ChunksFrom(text, chunkSize, overlap, SatSub(e, overlap), idx + 1)
  }

  /**
   * One turn of the loop: the chunk at `start` followed by the chunks from
   * the next start are the chunks from `start`.
   */
  lemma ChunksFromStep(text: string, chunkSize: nat, overlap: nat, start: nat, idx: nat,
                       done: seq<TextChunk>, whole: seq<TextChunk>)
    requires start < |text| && Progresses(text, chunkSize, overlap, start)
    requires done + ChunksFrom(text, chunkSize, overlap, start, idx) == whole
    ensures var e := ChunkEnd(text, chunkSize, start);
      start <= e <= |text|
      && (e >= |text| ==> done + [TextChunk(text[start..e], start, e, idx)] == whole)
      && (e < |text| ==>
            SatSub(e, overlap) > start && SatSub(e, overlap) < |text|
            && Progresses(text, chunkSize, overlap, SatSub(e, overlap))
            && done + [TextChunk(text[start..e], start, e, idx)]
               + ChunksFrom(text, chunkSize, overlap, SatSub(e, overlap), idx + 1) == whole)
  {
    var e := ChunkEnd(text, chunkSize, start);
    ChunkEndBounds(text, chunkSize, start);
    var c := TextChunk(text[start..e], start, e, idx);
    if e < |text| {
      var rest := ChunksFrom(text, chunkSize, overlap, SatSub(e, overlap), idx + 1);
      assert ChunksFrom(text, chunkSize, overlap, start, idx) == [c] + rest;
      assert done + [c] + rest == done + ([c] + rest);
    } else {
      assert ChunksFrom(text, chunkSize, overlap, start, idx) == [c];
    }
  }

  /** `chunk_text`: a text that fits is one chunk. */
  function ChunkTextSpec(text: string, config: ChunkingConfig): seq<TextChunk>
    requires Progresses(text, config.chunkSize, config.overlap, 0)
  {
    if |text| <= config.chunkSize then [TextChunk(text, 0, |text|, 0)]
    else ChunksFrom(text, config.chunkSize, config.overlap, 0, 0)
  }

  method ChunkText(text: string, config: ChunkingConfig) returns (chunks: seq<TextChunk>)
    requires Progresses(text, config.chunkSize, config.overlap, 0)
    ensures chunks == ChunkTextSpec(text, config)
  {
    if |text| <= config.chunkSize {
      return [TextChunk(text, 0, |text|, 0)];
    }
    chunks := [];
    var start := 0;
    var chunkIndex := 0;
    ghost var whole := ChunksFrom(text, config.chunkSize, config.overlap, 0, 0);
    assert [] + whole == whole;
    while start < |text|
      invariant Progresses(text, config.chunkSize, config.overlap, start)
      invariant chunks + ChunksFrom(text, config.chunkSize, config.overlap, start, chunkIndex) == whole
      decreases |text| - start
    {
      var end := Min(start + config.chunkSize, |text|);
      var actualEnd := end;
      if end < |text| {
        actualEnd := FindWordBoundary(text, end);
      }
      assert actualEnd == ChunkEnd(text, config.chunkSize, start);
      ChunksFromStep(text, config.chunkSize, config.overlap, start, chunkIndex, chunks, whole);
      chunks := chunks + [TextChunk(text[start..actualEnd], start, actualEnd, chunkIndex)];
      if actualEnd >= |text| {
        break;
      }
      start := SatSub(actualEnd, config.overlap);
      chunkIndex := chunkIndex + 1;
    }
  }

  // ---------------------------------------------------------------------
  // Properties of the chunks

  /**
   * Each chunk is the slice of the text between its indices, non-empty and
   * at most `chunk_size` long, numbered consecutively; the first starts at
   * `start`.
   */
  lemma {:induction false} ChunksFromSlices(text: string, chunkSize: nat, overlap: nat, start: nat, idx: nat)
    requires Progresses(text, chunkSize, overlap, start)
    ensures var cs := ChunksFrom(text, chunkSize, overlap, start, idx);
      (start < |text| <==> cs != [])
      && (cs != [] ==> cs[0].startIdx == start)
      && forall k :: 0 <= k < |cs| ==>
           (start <= cs[k].startIdx < cs[k].endIdx <= |text|
            && cs[k].endIdx - cs[k].startIdx <= chunkSize
            && cs[k].text == text[cs[k].startIdx..cs[k].endIdx]
            && cs[k].chunkIndex == idx + k)
    decreases |text| - start
  {
    if start < |text| {
      var e := ChunkEnd(text, chunkSize, start);
      ChunkEndBounds(text, chunkSize, start);
      if e < |text| {
        ChunksFromSlices(text, chunkSize, overlap, SatSub(e, overlap), idx + 1);
      }
    }
  }

  /**
   * Each chunk but the last ends before the end of the text, and the next
   * one starts `overlap` before that end (never below 0); the last chunk
   * ends exactly at the end of the text.
   */
  lemma {:induction false} ChunksFromLinked(text: string, chunkSize: nat, overlap: nat, start: nat, idx: nat)
    requires Progresses(text, chunkSize, overlap, start)
    ensures var cs := ChunksFrom(text, chunkSize, overlap, start, idx);
      (cs != [] ==> cs[|cs| - 1].endIdx == |text|)
      && forall k :: 0 <= k < |cs| - 1 ==>
           (cs[k].endIdx < |text| && cs[k + 1].startIdx == SatSub(cs[k].endIdx, overlap)
            && cs[k].startIdx < cs[k + 1].startIdx)
    decreases |text| - start
  {
    if start < |text| {
      var e := ChunkEnd(text, chunkSize, start);
      ChunkEndBounds(text, chunkSize, start);
      var c := TextChunk(text[start..e], start, e, idx);
      if e < |text| {
        var next := SatSub(e, overlap);
        var rest := ChunksFrom(text, chunkSize, overlap, next, idx + 1);
        var cs := ChunksFrom(text, chunkSize, overlap, start, idx);
        assert cs == [c] + rest;
        ChunksFromLinked(text, chunkSize, overlap, next, idx + 1);
        ChunksFromSlices(text, chunkSize, overlap, next, idx + 1);
        forall k | 0 <= k < |cs| - 1
          ensures cs[k].endIdx < |text| && cs[k + 1].startIdx == SatSub(cs[k].endIdx, overlap)
            && cs[k].startIdx < cs[k + 1].startIdx
        {
          assert cs[k + 1] == rest[k];
          if k > 0 { assert cs[k] == rest[k - 1]; }
        }
        assert cs[|cs| - 1] == rest[|rest| - 1];
      } else {
        assert ChunksFrom(text, chunkSize, overlap, start, idx) == [c];
      }
    }
  }

  /** A text no longer than the chunk size is a single chunk spanning all of it. */
  lemma ChunkTextShort(text: string, config: ChunkingConfig)
    requires |text| <= config.chunkSize
    ensures Progresses(text, config.chunkSize, config.overlap, 0)
    ensures ChunkTextSpec(text, config) == [TextChunk(text, 0, |text|, 0)]
  {
  }

  /**
   * The chunks of any text: each is the slice between its indices and at
   * most `chunk_size` long, they are numbered 0, 1, 2, ..., the first starts
   * at 0, each next one starts `overlap` before the previous end, and only
   * the last reaches the end of the text.
   */
  lemma ChunkTextSpecProperties(text: string, config: ChunkingConfig)
    requires Progresses(text, config.chunkSize, config.overlap, 0)
    ensures var cs := ChunkTextSpec(text, config);
      cs != [] && cs[0].startIdx == 0 && cs[|cs| - 1].endIdx == |text|
      && (forall k :: 0 <= k < |cs| ==>
            (cs[k].startIdx <= cs[k].endIdx <= |text|
             && cs[k].endIdx - cs[k].startIdx <= config.chunkSize
             && cs[k].text == text[cs[k].startIdx..cs[k].endIdx]
             && cs[k].chunkIndex == k))
      && (forall k :: 0 <= k < |cs| - 1 ==>
            (cs[k].endIdx < |text| && cs[k + 1].startIdx == SatSub(cs[k].endIdx, config.overlap)))
  {
    if |text| > config.chunkSize {
      ChunksFromSlices(text, config.chunkSize, config.overlap, 0, 0);
      ChunksFromLinked(text, config.chunkSize, config.overlap, 0, 0);
    } else {
      assert text[0..|text|] == text;
    }
  }

  /** The chunks leave no gap: each next chunk starts no later than the previous one ends. */
  lemma ChunksCoverText(text: string, config: ChunkingConfig, k: nat)
    requires Progresses(text, config.chunkSize, config.overlap, 0)
    requires k + 1 < |ChunkTextSpec(text, config)|
    ensures ChunkTextSpec(text, config)[k + 1].startIdx <= ChunkTextSpec(text, config)[k].endIdx
  {
    ChunkTextSpecProperties(text, config);
  }

  // ---------------------------------------------------------------------
  // When the loop advances

  /** With `overlap + 50 <= chunk_size` the loop advances on every text. */
  lemma {:induction false} ProgressesWhenWindowFits(text: string, chunkSize: nat, overlap: nat, start: nat)
    requires overlap + Lookback <= chunkSize
    ensures Progresses(text, chunkSize, overlap, start)
    decreases |text| - start
  {
    if start < |text| {
      var e := ChunkEnd(text, chunkSize, start);
      ChunkEndBounds(text, chunkSize, start);
      if e < |text| {
        ProgressesWhenWindowFits(text, chunkSize, overlap, e - overlap);
      }
    }
  }

  /** A text without boundary characters. */
  predicate NoBoundary(text: string) {
    forall i :: 0 <= i < |text| ==> !IsBoundaryChar(text[i])
  }

  /** Without boundary characters every chunk is cut at the full chunk size. */
  lemma NoBoundaryCut(text: string, pos: nat)
    requires NoBoundary(text)
    ensures WordBoundary(text, pos) == pos
  {
    WordBoundarySpec(text, pos);
  }

  /** Without boundary characters the loop advances whenever `overlap < chunk_size`. */
  lemma {:induction false} ProgressesWithoutBoundaries(text: string, chunkSize: nat, overlap: nat, start: nat)
    requires NoBoundary(text) && overlap < chunkSize
    ensures Progresses(text, chunkSize, overlap, start)
    decreases |text| - start
  {
    if start < |text| {
      var e := ChunkEnd(text, chunkSize, start);
      NoBoundaryCut(text, Min(start + chunkSize, |text|));
      if e < |text| {
        ProgressesWithoutBoundaries(text, chunkSize, overlap, e - overlap);
      }
    }
  }

  // ---------------------------------------------------------------------
  // The tests of context_builder.rs

  lemma ChunkTextSmallExample()
    ensures Progresses("Hello world", 100, 20, 0)
    ensures ChunkTextSpec("Hello world", ChunkingConfig(100, 20, true)) == [TextChunk("Hello world", 0, 11, 0)]
  {
  }

  function Repeat(c: char, n: nat): (s: string)
    ensures |s| == n && forall i :: 0 <= i < n ==> s[i] == c
  {
    seq(n, _ => c)
  }

  /**
   * 150 `a`s with chunk size 50 and overlap 10: more than one chunk (four:
   * [0,50), [40,90), [80,130), [120,150)), the last ending at 150.
   */
  lemma ChunkTextLargeExample()
    ensures Progresses(Repeat('a', 150), 50, 10, 0)
    ensures var cs := ChunkTextSpec(Repeat('a', 150), ChunkingConfig(50, 10, true));
      |cs| == 4 && cs[|cs| - 1].endIdx == 150
      && [cs[0].startIdx, cs[1].startIdx, cs[2].startIdx, cs[3].startIdx] == [0, 40, 80, 120]
  {
    var text := Repeat('a', 150);
    assert NoBoundary(text);
    ProgressesWithoutBoundaries(text, 50, 10, 0);
    var config := ChunkingConfig(50, 10, true);
    ChunkTextSpecProperties(text, config);
    NoBoundaryCut(text, 50);
    NoBoundaryCut(text, 90);
    NoBoundaryCut(text, 130);
    assert ChunkEnd(text, 50, 0) == 50;
    assert ChunkEnd(text, 50, 40) == 90;
    assert ChunkEnd(text, 50, 80) == 130;
    assert ChunkEnd(text, 50, 120) == 150;
    ProgressesWithoutBoundaries(text, 50, 10, 120);
    assert ChunksFrom(text, 50, 10, 120, 3) == [TextChunk(text[120..150], 120, 150, 3)];
    ProgressesWithoutBoundaries(text, 50, 10, 80);
    assert |ChunksFrom(text, 50, 10, 80, 2)| == 2;
    ProgressesWithoutBoundaries(text, 50, 10, 40);
    assert |ChunksFrom(text, 50, 10, 40, 1)| == 3;
  }

  // ---------------------------------------------------------------------
  // get_chunk_stats

  datatype ChunkStats = ChunkStats(
    totalTextLength: nat,
    totalChunks: nat,
    avgChunkSize: nat,
    chunkSizeConfig: nat,
    overlapConfig: nat)

  /** The summed length of the chunks' texts. */
  function TotalLength(cs: seq<TextChunk>): nat {
    if cs == [] then 0 else |cs[0].text| + TotalLength(cs[1..])
  }

  lemma {:induction false} TotalLengthBound(cs: seq<TextChunk>, bound: nat)
    requires forall k :: 0 <= k < |cs| ==> |cs[k].text| <= bound
    ensures TotalLength(cs) <= |cs| * bound
    decreases |cs|
  {
    if cs != [] {
      TotalLengthBound(cs[1..], bound);
      assert |cs| * bound == bound + (|cs| - 1) * bound;
    }
  }

  /** The mean rounded down, 0 for no items (`usize` division). */
  function Mean(sum: nat, count: nat): nat {
    if count > 0 then sum / count else 0
  }

  /** Floor division keeps a bound that holds on average. */
  lemma DivBound(a: nat, n: nat, bound: nat)
    requires n > 0 && a <= n * bound
    ensures Mean(a, n) <= bound
  {
  }

  /** There is a chunk, and no chunk is longer than the chunk size, nor is their mean. */
  lemma ChunkAverageBound(text: string, config: ChunkingConfig, cs: seq<TextChunk>)
    requires Progresses(text, config.chunkSize, config.overlap, 0)
    requires cs == ChunkTextSpec(text, config)
    ensures |cs| >= 1 && Mean(TotalLength(cs), |cs|) <= config.chunkSize
  {
    ChunkTextSpecProperties(text, config);
    TotalLengthBound(cs, config.chunkSize);
    DivBound(TotalLength(cs), |cs|, config.chunkSize);
  }

  /**
   * `get_chunk_stats`: the text length, the number of chunks (at least one),
   * their mean length rounded down, which never exceeds the chunk size, and
   * the configuration.
   */
  method GetChunkStats(text: string, config: ChunkingConfig) returns (stats: ChunkStats)
    requires Progresses(text, config.chunkSize, config.overlap, 0)
    ensures var cs := ChunkTextSpec(text, config);
      stats.totalTextLength == |text|
      && stats.totalChunks == |cs| && stats.totalChunks >= 1
      && stats.avgChunkSize == Mean(TotalLength(cs), |cs|)
      && stats.avgChunkSize <= config.chunkSize
      && stats.chunkSizeConfig == config.chunkSize && stats.overlapConfig == config.overlap
  {
    var chunks := ChunkText(text, config);
    var totalChunks := |chunks|;
    ChunkAverageBound(text, config, chunks);
    var avg := Mean(TotalLength(chunks), totalChunks);
    stats := ChunkStats(|text|, totalChunks, avg, config.chunkSize, config.overlap);
  }

  /** A text that fits in one chunk has one chunk of its own length. */
  lemma ChunkStatsShort(text: string, config: ChunkingConfig)
    requires |text| <= config.chunkSize
    ensures Progresses(text, config.chunkSize, config.overlap, 0)
    ensures Mean(TotalLength(ChunkTextSpec(text, config)), |ChunkTextSpec(text, config)|) == |text|
  {
    ChunkTextShort(text, config);
    assert TotalLength(ChunkTextSpec(text, config)) == |text| + TotalLength([]);
  }

  // ---------------------------------------------------------------------
  // Validation lets through configurations the loop cannot handle

  /** The next start as written: `actual_end.saturating_sub(overlap)`. */
  function NextStart(text: string, chunkSize: nat, overlap: nat, start: nat): nat {
    SatSub(ChunkEnd(text, chunkSize, start), overlap)
  }

  /** `"a "` followed by thirty `b`s. */
  function StuckText(): string {
    "a " + Repeat('b', 30)
  }

  /** The default configuration with one entity and chunk size 20, overlap 10. */
  function SmallChunkConfig(e: EntityConfig): ContragConfig {
    CreateDefaultConfig().(entities := [e], chunking := ChunkingConfig(20, 10, true))
  }

  /**
   * As written: validation accepts chunk size 20 with overlap 10, yet on
   * `StuckText()` the first chunk is cut back to [0, 2) and the next start is
   * 0 again, so the loop of `chunk_text` repeats the same turn for ever.
   */
  lemma ChunkLoopStuckExample(e: EntityConfig)
    requires e.name != [] && e.canisterId != []
    ensures ValidateConfig(SmallChunkConfig(e)).Ok?
    ensures ChunkEnd(StuckText(), 20, 0) == 2 < |StuckText()|
    ensures NextStart(StuckText(), 20, 10, 0) == 0
    ensures !Progresses(StuckText(), 20, 10, 0)
  {
    var config := SmallChunkConfig(e);
    assert [e][1..] == [];
    assert CheckEntities(config.entities) == Ok(());
    var text := StuckText();
    assert text[1] == ' ';
    assert forall j :: 2 <= j < |text| ==> text[j] == 'b';
    BoundaryBelowSpec(text, 0, 20, 20);
    assert HasBoundary(text, 0, 20);
    var r := WordBoundary(text, 20);
    assert text[0] == 'a';
  }

  const WindowTooSmall := InvalidConfig("Chunk size must exceed overlap by at least 50")

  /** Corrected validation: also demands room for the 50-character lookback. */
  function ValidateConfigForChunker(config: ContragConfig): Result<()> {
    match ValidateConfig(config)
    case Err(e) => Err(e)
    case Ok(_) =>
      if config.chunking.overlap + Lookback > config.chunking.chunkSize then Err(WindowTooSmall)
      else Ok(())
  }

  /**
   * A configuration that passes the corrected validation chunks every text:
   * the loop advances on each turn. It rejects only what the original
   * validation rejects plus chunk sizes within 50 of the overlap.
   */
  lemma ValidatedConfigChunks(config: ContragConfig, text: string)
    ensures ValidateConfigForChunker(config).Ok? <==>
      ValidateConfig(config).Ok? && config.chunking.overlap + Lookback <= config.chunking.chunkSize
    ensures ValidateConfigForChunker(config).Ok? ==>
      Progresses(text, config.chunking.chunkSize, config.chunking.overlap, 0)
  {
    if ValidateConfigForChunker(config).Ok? {
      ProgressesWhenWindowFits(text, config.chunking.chunkSize, config.chunking.overlap, 0);
    }
  }

  /** The default chunking passes the corrected validation once an entity is configured. */
  lemma DefaultChunkingFits(e: EntityConfig)
    requires e.name != [] && e.canisterId != []
    ensures ValidateConfigForChunker(CreateDefaultConfig().(entities := [e])).Ok?
  {
    DefaultConfigWithEntityAccepted(e);
  }
}
