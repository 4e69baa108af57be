# contrag-core in Dafny

A model of the core of contrag-core, the Rust library behind ContRAG. ContRAG turns
application entities (users, orders, …) into overlapping text chunks, embeds them, keeps the
embeddings in a namespace-partitioned vector store inside an Internet Computer canister, and
answers similarity searches over them. The model covers:

- `context_builder.rs`: the entity, graph and multi-entity context formatters, the overlapping
  text chunker `chunk_text` with its word-boundary snap `find_word_boundary`, `build_and_chunk*`
  and `get_chunk_stats` (modules `ContextBuilder`, `Chunker`).
- `vector_store/stable_memory_store.rs`: the in-memory store as a class holding the namespace
  map and the namespace list that its methods update (module `VectorStore`).
- `vector_store/mod.rs`: cosine similarity, Euclidean distance and the interface's default
  `store_batch` loop (module `Similarity`).
- `embedders/mod.rs`: the bounded `EmbeddingCache` and `CachedEmbedder::embed_with_cache`
  (module `Embedders`).
- `config.rs`: the configuration records, their defaults, `validate_config` and `load_config`
  (module `Config`).
- `utils.rs`: `generate_vector_id`, `sanitize_text` and `truncate_text` (module `Utils`).
- `entity.rs`: the default `RagEntity::to_text` and `to_summary`, and `flatten_json_to_context`
  over a small JSON datatype (module `Entity`).

Shared pieces live in `Types` (the records of `types.rs` and the error variants of `error.rs`),
`Strings` (join, split at a character, whitespace words, trimming) and `Sorting` (`Vec::retain`
as `Filter`/`Retain`, and one stable insertion sort `SortBy` standing for both `sort_by` and
`sort_by_key`).

Modelling choices:

- A string is `seq<char>` with one byte per character. The source's byte lengths (`text.len()`)
  and character positions (`text.chars()`) then agree.
- `f32` is `real` and `usize`/`u64` are `nat`, so there is no rounding and no overflow.
- Square roots are not part of Dafny's reals. The metrics take the square-root function as a
  parameter `sqrt`, and the lemmas assume only `IsSqrt(sqrt)`: its value is non-negative, it
  squares back to its argument, and it returns `y` for `y * y` when `y >= 0`.
- Each operation of the store and the cache is a pure function on a state value
  (`StoreOp`, `DeleteOp`, `InsertOp`, …). The class methods are proved to perform it on their
  fields, and the lemmas are stated on the functions.
- The embedder behind `CachedEmbedder` is a function `embed` from the batch of texts sent to its
  answer. JSON parsing in `load_config_from_json` is a function `parse` from the text to a
  configuration or serde's message.
- `ContextBuilder` holds only its `ChunkingConfig`; here that configuration is a parameter of
  each operation.

The model follows the code where it behaves in ways that are easy to overlook:

- `store` appends, and earlier vectors with the same id stay stored. It checks no
  dimensions, so `DimensionMismatch` is never raised.
- A full cache evicts whichever key the hash map yields first, not the least recently used one
  its comment mentions.
  The model lets the evicted key be any key of the cache.
- `embed_with_cache` sends repeated misses repeatedly, without de-duplication. When the embedder
  answers fewer embeddings than there are misses, the `zip` drops the unanswered ones and the
  output is shorter than the input.
- `store_batch` is not atomic: the vectors before a failing one stay stored.

## Model

| member | source | states |
|---|---|---|
| `Chunker.FindWordBoundary` | contrag-rust/contrag-core/src/context_builder.rs:108-124 | the reversed scan returns `WordBoundary(text, pos)`: one past the nearest boundary character at or above `max(0, pos-50)`, or `pos` |
| `Chunker.BoundaryBelowSpec` | contrag-rust/contrag-core/src/context_builder.rs:112-123 | with a boundary character in `[lo, hi)` the scan returns one past the highest one, and nothing between it and `hi` is a boundary; without one it returns the default |
| `Chunker.WordBoundarySpec` | contrag-rust/contrag-core/src/context_builder.rs:108-124 | the snapped end is `<= pos`; it follows the last whitespace, `.`, `!` or `?` of the 50-character window, and is `pos` when the window has none |
| `Chunker.NoBoundaryCut` | contrag-rust/contrag-core/src/context_builder.rs:108-124 | in a text without boundary characters the snap leaves every position where it is |
| `Chunker.ChunkEndBounds` | contrag-rust/contrag-core/src/context_builder.rs:79-86 | a chunk ends at most at `min(start + chunk_size, len)`, and a snapped end lies within 50 characters of `start + chunk_size` |
| `Chunker.ChunksFromStep` | contrag-rust/contrag-core/src/context_builder.rs:78-102 | one turn of the loop emits `text[start..end]` with the current index; then it either stops at the text's end or continues from `end - overlap` (floored at 0), which is past `start` |
| `Chunker.ChunkText` | contrag-rust/contrag-core/src/context_builder.rs:64-105 | the loop returns exactly the chunks of `ChunkTextSpec`, the short-text case included, whenever the run advances (`Progresses`) |
| `Chunker.ChunksFromSlices` | contrag-rust/contrag-core/src/context_builder.rs:78-102 | every chunk is the slice `text[start_idx..end_idx]`, non-empty, at most `chunk_size` long, and numbered consecutively from the first index; there are chunks exactly when the start is inside the text |
| `Chunker.ChunksFromLinked` | contrag-rust/contrag-core/src/context_builder.rs:96-100 | the last chunk ends at `len(text)`, every earlier one ends before it, and each next chunk starts at the previous end minus `overlap`, floored at 0, strictly later than the previous start |
| `Chunker.ChunkTextShort` | contrag-rust/contrag-core/src/context_builder.rs:65-72 | a text no longer than `chunk_size` gives exactly one chunk: the whole text, span `[0, len)`, index 0 |
| `Chunker.ChunkTextSpecProperties` | contrag-rust/contrag-core/src/context_builder.rs:64-105 | the chunks are never empty as a list, start at 0, end at `len(text)`, are slices of at most `chunk_size` characters indexed 0, 1, 2, …, and each next start is the previous end minus `overlap` |
| `Chunker.ChunksCoverText` | contrag-rust/contrag-core/src/context_builder.rs:100 | consecutive chunks leave no gap: each starts at or before the end of the one before |
| `Chunker.ProgressesWhenWindowFits` | contrag-rust/contrag-core/src/context_builder.rs:78-102 | when `overlap + 50 <= chunk_size` the loop advances on every text from every start |
| `Chunker.ProgressesWithoutBoundaries` | contrag-rust/contrag-core/src/context_builder.rs:78-102 | in a text without boundary characters, `overlap < chunk_size` is enough for the loop to advance |
| `Chunker.ChunkTextSmallExample` | contrag-rust/contrag-core/src/context_builder.rs:186-199 | "Hello world" with size 100 and overlap 20 is the single chunk `("Hello world", 0, 11, 0)` |
| `Chunker.ChunkTextLargeExample` | contrag-rust/contrag-core/src/context_builder.rs:202-214 | 150 `a`s with size 50 and overlap 10 give four chunks starting at 0, 40, 80 and 120, the last ending at 150 |
| `Chunker.TotalLengthBound` | contrag-rust/contrag-core/src/context_builder.rs:156 | chunks of at most `b` characters each add up to at most `count * b` |
| `Chunker.ChunkAverageBound` | contrag-rust/contrag-core/src/context_builder.rs:152-159 | there is at least one chunk, and the integer mean chunk length is at most `chunk_size` |
| `Chunker.GetChunkStats` | contrag-rust/contrag-core/src/context_builder.rs:152-168 | the stats report the text length, the number of chunks (at least one), the mean chunk length (at most `chunk_size`) and the configured size and overlap |
| `Chunker.ChunkStatsShort` | contrag-rust/contrag-core/src/context_builder.rs:152-168 | for a text that fits in one chunk the mean chunk length is the text's length |
| `Chunker.ChunkLoopStuckExample` | contrag-rust/contrag-core/src/context_builder.rs:78-102 | a configuration `validate_config` accepts (size 20, overlap 10) makes the first chunk of `"a "` plus 30 `b`s end at 2, the next start is 0 again, and the loop never advances |
| `Chunker.ValidatedConfigChunks` | contrag-rust/contrag-core/src/config.rs:137-177 | the corrected validation accepts exactly what `validate_config` accepts with `overlap + 50 <= chunk_size`, and whatever it accepts chunks every text |
| `Chunker.DefaultChunkingFits` | contrag-rust/contrag-core/src/config.rs:180-193 | the default 1000/100 chunking with one complete entity passes the corrected validation |
| `ContextBuilder.BuildEntityContext` | contrag-rust/contrag-core/src/context_builder.rs:17-35 | the context is the header lines and one line per map entry (`key: value`, or the bare value without field names), joined by newlines |
| `ContextBuilder.EntityContextIsToText` | contrag-rust/contrag-core/src/context_builder.rs:17-35 | with field names the entity context is exactly the entity's default `to_text` |
| `ContextBuilder.EntityContextLines` | contrag-rust/contrag-core/src/context_builder.rs:17-35 | if no field holds a newline, splitting the context at newlines gives back `Entity: T`, `ID: id`, `---` and one line per entry in either mode |
| `ContextBuilder.BuildGraphContext` | contrag-rust/contrag-core/src/context_builder.rs:38-61 | the root context, then each related context wrapped with the banner of the relationship at its position, or in bare newlines when there is none, joined by newlines |
| `ContextBuilder.GraphContextAlone` | contrag-rust/contrag-core/src/context_builder.rs:38-61 | without related contexts the graph context is the root's own context |
| `ContextBuilder.GraphContextSnoc` | contrag-rust/contrag-core/src/context_builder.rs:47-58 | one more related context appends a newline and `\n=== Relationship: <field> ===\n<ctx>\n` when a relationship exists at that index, otherwise `\n<ctx>\n` |
| `ContextBuilder.GraphContextStartsWithRoot` | contrag-rust/contrag-core/src/context_builder.rs:43-60 | the root context is a prefix of the graph context |
| `ContextBuilder.MultiEntityContextSpec` | contrag-rust/contrag-core/src/context_builder.rs:143-149 | no entities give the empty text, one entity gives its context, and each further entity adds the `=== Next Entity ===` banner and its context |
| `ContextBuilder.BuildAndChunk` | contrag-rust/contrag-core/src/context_builder.rs:127-130 | the chunks of the entity context: slices of it, at least one, the last reaching its end |
| `ContextBuilder.BuildAndChunkGraph` | contrag-rust/contrag-core/src/context_builder.rs:133-140 | the chunks of the graph context: slices of it, at least one, the last reaching its end |
| `VectorStore.StableMemoryVectorStore.constructor` | contrag-rust/contrag-core/src/vector_store/stable_memory_store.rs:34-39 | a new store has no namespaces and no vectors |
| `VectorStore.StableMemoryVectorStore.Store` | contrag-rust/contrag-core/src/vector_store/stable_memory_store.rs:69-94 | `store` returns `Ok`, and the new state appends the vector to its namespace and lists the namespace if it is new; the invariant is kept |
| `VectorStore.StableMemoryVectorStore.StoreBatch` | contrag-rust/contrag-core/src/vector_store/stable_memory_store.rs:96-101 | `store_batch` returns `Ok` and stores every vector in order |
| `VectorStore.StableMemoryVectorStore.Search` | contrag-rust/contrag-core/src/vector_store/stable_memory_store.rs:103-149 | the result is `SearchOp` of the current contents; its properties are the `Search*` lemmas |
| `VectorStore.StableMemoryVectorStore.Delete` | contrag-rust/contrag-core/src/vector_store/stable_memory_store.rs:151-159 | `delete` returns `Ok` and retains the vectors of other ids in the namespace |
| `VectorStore.StableMemoryVectorStore.DeleteNamespace` | contrag-rust/contrag-core/src/vector_store/stable_memory_store.rs:161-169 | `delete_namespace` returns `Ok` and removes the namespace from the map and from the list |
| `VectorStore.StableMemoryVectorStore.Count` | contrag-rust/contrag-core/src/vector_store/stable_memory_store.rs:171-174 | the number of vectors in the namespace, 0 when absent |
| `VectorStore.StableMemoryVectorStore.ListNamespaces` | contrag-rust/contrag-core/src/vector_store/stable_memory_store.rs:176-178 | the namespace list as it stands |
| `VectorStore.ToStored` | contrag-rust/contrag-core/src/vector_store/stable_memory_store.rs:70-79 | the stored record copies the id, embedding, text and each metadata field of the vector |
| `VectorStore.StoreAppends` | contrag-rust/contrag-core/src/vector_store/stable_memory_store.rs:69-94 | the vector lands last in its namespace, the count grows by exactly one, other namespaces are unchanged, and the list gains the name only when it was absent |
| `VectorStore.StoreKeepsInv` | contrag-rust/contrag-core/src/vector_store/stable_memory_store.rs:87-91 | the namespace list stays free of duplicates and names exactly the map's keys |
| `VectorStore.StoreBatchIsDefault` | contrag-rust/contrag-core/src/vector_store/stable_memory_store.rs:96-101 | the store's own `store_batch` is the interface's default loop run over its `store`, and never fails |
| `VectorStore.StoreBatchAppends` | contrag-rust/contrag-core/src/vector_store/stable_memory_store.rs:96-101 | a batch appends all its vectors in order to the namespace and leaves other namespaces alone |
| `VectorStore.DeleteRemovesId` | contrag-rust/contrag-core/src/vector_store/stable_memory_store.rs:151-159 | exactly the vectors with that id leave the namespace and the rest keep their order; namespaces and other namespaces are unchanged; an unknown namespace is a no-op |
| `VectorStore.DeleteAbsentId` | contrag-rust/contrag-core/src/vector_store/stable_memory_store.rs:151-159 | deleting an id the namespace does not hold changes nothing |
| `VectorStore.DeleteIdempotent` | contrag-rust/contrag-core/src/vector_store/stable_memory_store.rs:151-159 | deleting the same id twice is deleting it once |
| `VectorStore.DeleteKeepsInv` | contrag-rust/contrag-core/src/vector_store/stable_memory_store.rs:151-159 | `delete` keeps the namespace invariant |
| `VectorStore.DeleteNamespaceRemoves` | contrag-rust/contrag-core/src/vector_store/stable_memory_store.rs:161-178 | afterwards the count is 0, the list omits the name, search on it fails with `Namespace not found`, and every other namespace and list entry is unchanged |
| `VectorStore.DeleteNamespaceKeepsInv` | contrag-rust/contrag-core/src/vector_store/stable_memory_store.rs:161-169 | `delete_namespace` keeps the namespace invariant |
| `VectorStore.RankedEntries` | contrag-rust/contrag-core/src/vector_store/stable_memory_store.rs:120-129 | the ranking holds each stored vector with its cosine score to the query and its position |
| `VectorStore.RankedCovers` | contrag-rust/contrag-core/src/vector_store/stable_memory_store.rs:120-129 | every stored vector appears in the ranking |
| `VectorStore.RankedOrder` | contrag-rust/contrag-core/src/vector_store/stable_memory_store.rs:128-129 | scores never increase along the ranking, and equal scores keep storage order |
| `VectorStore.SearchMissingNamespace` | contrag-rust/contrag-core/src/vector_store/stable_memory_store.rs:111-113 | a namespace absent from the map fails with `VectorStoreError("Namespace not found: <ns>")` |
| `VectorStore.SearchSpec` | contrag-rust/contrag-core/src/vector_store/stable_memory_store.rs:103-149 | on a present namespace search succeeds with `min(k, n)` results, scores non-increasing, each a copy of a distinct stored vector with `custom = None`, and no vector left out scores higher than one returned; an empty namespace gives `Ok([])` |
| `VectorStore.SearchTakes` | contrag-rust/contrag-core/src/vector_store/stable_memory_store.rs:111-134 | search returns the first `k` entries of the ranking |
| `VectorStore.SearchCopies` | contrag-rust/contrag-core/src/vector_store/stable_memory_store.rs:135-147 | each result copies its stored id, text and metadata fields, carries the cosine score, and has `custom = None` |
| `VectorStore.SearchOrdered` | contrag-rust/contrag-core/src/vector_store/stable_memory_store.rs:128-134 | the results' scores never increase and no stored vector is returned twice |
| `VectorStore.SearchTopK` | contrag-rust/contrag-core/src/vector_store/stable_memory_store.rs:128-134 | every stored vector left out scores at most as high as every result |
| `VectorStore.SearchStable` | contrag-rust/contrag-core/src/vector_store/stable_memory_store.rs:128-129 | among results of equal score, the vector stored earlier comes first |
| `VectorStore.StoreThenSearchExample` | contrag-rust/contrag-core/src/vector_store/stable_memory_store.rs:191-219 | storing `test1` with `[1,0,0]` and searching with `[1,0,0]`, `k = 5` gives one result, `test1`, score 1 |
| `Sorting.Retain` | contrag-rust/contrag-core/src/vector_store/stable_memory_store.rs:155 | the in-place `retain` loop keeps exactly the elements of `Filter` in their order |
| `Sorting.FilterMembers` | contrag-rust/contrag-core/src/vector_store/stable_memory_store.rs:155 | an element survives `retain` exactly when it was there and passes the predicate |
| `Sorting.SortByPermutes` | contrag-rust/contrag-core/src/vector_store/stable_memory_store.rs:129 | sorting is a permutation |
| `Sorting.SortBySorted` | contrag-rust/contrag-core/src/vector_store/stable_memory_store.rs:129 | the sorted sequence is ordered by the key |
| `Sorting.SortByStable` | contrag-rust/contrag-core/src/vector_store/stable_memory_store.rs:129 | the sort is stable: elements of equal key keep their original order |
| `Sorting.SortedUnique` | contrag-rust/contrag-core/src/embedders/mod.rs:113 | a sequence ordered by a key that is strictly ordered in some permutation of it is that permutation, so sorting by distinct indices gives one answer |
| `Similarity.CosineLengthMismatch` | contrag-rust/contrag-core/src/vector_store/mod.rs:43-45 | vectors of different lengths have similarity 0 |
| `Similarity.CosineZero` | contrag-rust/contrag-core/src/vector_store/mod.rs:47-53 | a vector with all components zero has similarity 0 with anything |
| `Similarity.CosineSelf` | contrag-rust/contrag-core/src/vector_store/mod.rs:47-55 | a vector with a positive sum of squares has similarity 1 with itself |
| `Similarity.CosineSymmetric` | contrag-rust/contrag-core/src/vector_store/mod.rs:42-56 | cosine similarity does not depend on the order of its arguments |
| `Similarity.CosineOrthogonal` | contrag-rust/contrag-core/src/vector_store/mod.rs:47-55 | vectors with dot product 0 have similarity 0 |
| `Similarity.CosineExamples` | contrag-rust/contrag-core/src/vector_store/mod.rs:76-84 | `[1,0,0]` with itself is 1, and with `[0,1,0]` is 0 |
| `Similarity.EuclidLengthMismatch` | contrag-rust/contrag-core/src/vector_store/mod.rs:60-62 | vectors of different lengths are `f32::MAX` apart |
| `Similarity.EuclidMetric` | contrag-rust/contrag-core/src/vector_store/mod.rs:64-68 | the distance is non-negative, symmetric, squares to the sum of squared differences, and is 0 from a vector to itself |
| `Similarity.EuclidExamples` | contrag-rust/contrag-core/src/vector_store/mod.rs:87-95 | `[0,0,0]` to `[1,0,0]` is 1, and to `[1,1,0]` is `sqrt(2)` |
| `Similarity.StoreBatchDefault` | contrag-rust/contrag-core/src/vector_store/mod.rs:13-18 | the default loop computes `BatchSpec`: each vector stored in turn, stopping at the first error |
| `Similarity.BatchOk` | contrag-rust/contrag-core/src/vector_store/mod.rs:13-18 | the batch succeeds exactly when every `store` succeeds, and then every vector is stored in order |
| `Similarity.BatchFirstError` | contrag-rust/contrag-core/src/vector_store/mod.rs:13-18 | a failing batch returns the first failing `store`'s error and state, with every earlier vector stored |
| `Embedders.EmbeddingCache.constructor` | contrag-rust/contrag-core/src/embedders/mod.rs:42-47 | a new cache is empty and has the given capacity |
| `Embedders.EmbeddingCache.Get` | contrag-rust/contrag-core/src/embedders/mod.rs:49-51 | `get` returns the value stored under the text, or `None`, and changes nothing |
| `Embedders.EmbeddingCache.Insert` | contrag-rust/contrag-core/src/embedders/mod.rs:53-61 | `insert` evicts an allowed victim, then maps the text to the embedding; the size bound is kept |
| `Embedders.EmbeddingCache.InsertAll` | contrag-rust/contrag-core/src/embedders/mod.rs:102-104 | the answers are inserted in order, each with an allowed eviction, and the size bound is kept |
| `Embedders.EmbeddingCache.Clear` | contrag-rust/contrag-core/src/embedders/mod.rs:63-65 | `clear` leaves the cache empty |
| `Embedders.InsertSpec` | contrag-rust/contrag-core/src/embedders/mod.rs:53-61 | after `insert(t, e)`, `get(t)` is `e`; at most one other key goes, and only from a cache holding `max_size` entries or more; all other entries are unchanged |
| `Embedders.InsertBound` | contrag-rust/contrag-core/src/embedders/mod.rs:53-61 | `insert` keeps the size at most `max(max_size, 1)` |
| `Embedders.InsertNotFull` | contrag-rust/contrag-core/src/embedders/mod.rs:53-60 | a cache below capacity evicts nothing |
| `Embedders.LastInsertKept` | contrag-rust/contrag-core/src/embedders/mod.rs:102-104 | after inserting the answers, the last text inserted maps to its embedding |
| `Embedders.InsertSeqBound` | contrag-rust/contrag-core/src/embedders/mod.rs:102-104 | inserting the answers one by one keeps the size bound |
| `Embedders.CachedEmbedder.constructor` | contrag-rust/contrag-core/src/embedders/mod.rs:75-80 | the wrapper starts with an empty cache of the given size |
| `Embedders.CachedEmbedder.Partition` | contrag-rust/contrag-core/src/embedders/mod.rs:87-95 | the lookup loop yields the hit pairs, the miss texts and the miss positions, all in input order |
| `Embedders.CachedEmbedder.EmbedWithCache` | contrag-rust/contrag-core/src/embedders/mod.rs:82-115 | the result is `EmbedWithCacheOp`; at most one call, carrying exactly the misses and none when all hit; on error the cache is unchanged, on success the answers are inserted in miss order |
| `Embedders.AppendZip` | contrag-rust/contrag-core/src/embedders/mod.rs:106-109 | the miss positions zipped with the answers are appended to the results |
| `Embedders.Reassemble` | contrag-rust/contrag-core/src/embedders/mod.rs:112-114 | the results are sorted by index and their embeddings returned |
| `Embedders.SortedPairs` | contrag-rust/contrag-core/src/embedders/mod.rs:106-114 | sorting the hit pairs and the zipped miss pairs by index gives the embeddings in input order (`Assemble`) |
| `Embedders.AllPairsSpec` | contrag-rust/contrag-core/src/embedders/mod.rs:102-114 | with one answer per miss there is one pair per input, and pair `i` holds `i` and the cached value or that miss's answer |
| `Embedders.AllPairsLength` | contrag-rust/contrag-core/src/embedders/mod.rs:102-110 | one pair per hit, plus one per miss up to the number of answers |
| `Embedders.AssembleSpec` | contrag-rust/contrag-core/src/embedders/mod.rs:102-114 | with one answer per miss the output has the input's length, and position `i` holds the cached value or the answer to that miss |
| `Embedders.AssembleLength` | contrag-rust/contrag-core/src/embedders/mod.rs:107-109 | with too few answers the output is shorter than the input by the number of unanswered misses |
| `Embedders.NoMissesIffAllCached` | contrag-rust/contrag-core/src/embedders/mod.rs:88-98 | there are no misses exactly when every text is cached |
| `Embedders.AllCachedAnswer` | contrag-rust/contrag-core/src/embedders/mod.rs:98-114 | when every text is cached the answer is the cached values in input order |
| `Embedders.EmbedderErrorPassedOn` | contrag-rust/contrag-core/src/embedders/mod.rs:99 | an embedder error is returned as it is |
| `Embedders.MissesNotDeduplicated` | contrag-rust/contrag-core/src/embedders/mod.rs:88-95 | a text missing twice is sent to the embedder twice |
| `Config.CheckEntitiesOk` | contrag-rust/contrag-core/src/config.rs:162-174 | the entity scan passes exactly when every entity has a name and a canister id |
| `Config.CheckEntitiesFirstFailure` | contrag-rust/contrag-core/src/config.rs:162-174 | the scan reports the first incomplete entity: the empty-name error, or the canister-id error naming it |
| `Config.ValidateConfigOk` | contrag-rust/contrag-core/src/config.rs:137-177 | validation succeeds exactly when there are entities, dimensions > 0, chunk size > 0, overlap < chunk size and every entity is complete |
| `Config.ValidateConfigOrder` | contrag-rust/contrag-core/src/config.rs:137-161 | the checks run in order and the first failing one decides the message |
| `Config.ValidatedChunking` | contrag-rust/contrag-core/src/config.rs:150-160 | a validated configuration has `0 < chunk_size` and `overlap < chunk_size` |
| `Config.DefaultConfigRejected` | contrag-rust/contrag-core/src/config.rs:180-193 | `create_default_config()` fails validation with the no-entities error |
| `Config.DefaultConfigWithEntityAccepted` | contrag-rust/contrag-core/src/config.rs:180-193 | the default configuration with one complete entity passes validation |
| `Config.LoadConfigOk` | contrag-rust/contrag-core/src/config.rs:199-203 | loading succeeds exactly when parsing and validation succeed; a parse error becomes `ConfigError("Failed to parse config: …")`, and a validation error is passed on |
| `Config.LoadConfigIgnoresEnv` | contrag-rust/contrag-core/src/config.rs:199-203 | the environment variables do not influence the result |
| `Utils.NatToStringInjective` | contrag-rust/contrag-core/src/utils.rs:5 | different chunk indices have different decimal renderings |
| `Utils.GenerateVectorIdExample` | contrag-rust/contrag-core/src/utils.rs:59-63 | `("User", "123", 0)` gives `User::123::chunk_0` |
| `Utils.VectorIdsDistinctPerChunk` | contrag-rust/contrag-core/src/utils.rs:3-6 | for one entity, different chunk indices give different ids |
| `Utils.VectorIdsCanCollide` | contrag-rust/contrag-core/src/utils.rs:3-6 | ids of different entities coincide when a name contains `::` |
| `Utils.SanitizeTextKeepsWords` | contrag-rust/contrag-core/src/utils.rs:26-30 | sanitising keeps the words in order, and the result has no leading, trailing or repeated whitespace and no whitespace but single spaces |
| `Utils.SanitizeTextIdempotent` | contrag-rust/contrag-core/src/utils.rs:26-30 | sanitising twice is sanitising once |
| `Utils.SanitizeThreeWords` | contrag-rust/contrag-core/src/utils.rs:26-30 | three words separated by any whitespace runs come out joined by single spaces |
| `Utils.SanitizeTextExample` | contrag-rust/contrag-core/src/utils.rs:65-70 | `"Hello    world\n\n  test"` becomes `"Hello world test"` |
| `Utils.TruncateTextSpec` | contrag-rust/contrag-core/src/utils.rs:33-39 | a text that fits is returned unchanged; a longer one becomes its first `max_len` characters plus `...`, length `max_len + 3` |
| `Utils.TruncateTextExamples` | contrag-rust/contrag-core/src/utils.rs:72-77 | `("Hello world", 5)` gives `Hello...` and `("Hello world", 100)` the text itself |
| `Entity.ToText` | contrag-rust/contrag-core/src/entity.rs:67-79 | the text is `Entity: T`, `ID: id`, `---` and `key: value` per entry, joined by newlines |
| `Entity.EntityTextLines` | contrag-rust/contrag-core/src/entity.rs:67-79 | if no field holds a newline, splitting the text at newlines gives back exactly those lines |
| `Entity.ToSummary` | contrag-rust/contrag-core/src/entity.rs:82-89 | the summary is the text when it fits in `max_length`, otherwise its first `max_length` characters plus `...` |
| `Entity.QuotesStripped` | contrag-rust/contrag-core/src/entity.rs:152 | trimming `"` from both ends of a rendered string `"s"` gives back `s` itself when `s` neither starts nor ends with `"` |
| `Entity.FlattenLeaf` | contrag-rust/contrag-core/src/entity.rs:138-153 | an array gives one pair of its items joined by `, `, null gives `(prefix, "")`, a string, number or boolean gives one pair with its unquoted rendering |
| `Entity.FlattenObject` | contrag-rust/contrag-core/src/entity.rs:128-137 | an object flattens member by member in order, each under `prefix.key`, or the bare key at the top; an empty object gives nothing |
| `Entity.FlattenKeysPrefixed` | contrag-rust/contrag-core/src/entity.rs:121-157 | with a non-empty prefix every emitted key starts with it |
| `Entity.FlattenCount` | contrag-rust/contrag-core/src/entity.rs:121-157 | the number of pairs equals the number of non-object leaves |
| `Entity.FlattenNested` | contrag-rust/contrag-core/src/entity.rs:100-119 | for any unquoted name, age and location, the nested `user`/`profile` value flattens to `user.name`, `user.profile.age`, `user.profile.location` |
| `Entity.FlattenDocExample` | contrag-rust/contrag-core/src/entity.rs:100-119 | the documented example gives `("user.name","Alice")`, `("user.profile.age","30")`, `("user.profile.location","NYC")` |

## Left out

- HTTP embedders (`openai.rs`, `gemini.rs`, `http_client.rs`): network calls and cycle payments. The embedder is the parameter `embed`.
- Data sources and the example canister: inter-canister calls, Candid encoding and canister glue.
- `init`, `persist` and `get_namespace_key` of the store: `init` and `persist` have empty bodies, and `get_namespace_key` is never called.
- The `Arc<RwLock>` wrappers of the store: no concurrency is modelled, so the two fields are plain fields.
- `f32` rounding, NaN, and `partial_cmp(...).unwrap_or(Equal)` in the search sort: scores are reals, which are totally ordered.
- `get_timestamp` reads a clock; `format_bytes` works in `f64` with `{:.2}` formatting. Neither is modelled.
- serde: JSON parsing in `load_config_from_json` is the parameter `parse`. `Entity.Render` renders values compactly but does not escape characters inside strings, and a JSON number is kept as the text serde prints for it.
- UTF-8: a string is one byte per character, so the panics of `&text[..max_len]` and `text[start..actual_end]` on a non-character boundary cannot arise.
- The dimension check: `DimensionMismatch` is declared but never raised by the store, and the model raises it nowhere.
- The `ChunkStats` printout and the `Debug`/`Clone` derivations are not modelled.
- Chunker.ChunkText: requires `Progresses`, the condition under which the loop advances; without it the source never terminates (see Findings). If `chunk_size < 50`, a snapped end can also fall before `start` and the slice panics. `Progresses` excludes that case too, and it is not modelled further.
- ContextBuilder.BuildAndChunk: requires `Progresses` of the entity context, for the same reason.
- ContextBuilder.BuildAndChunkGraph: requires `Progresses` of the graph context, for the same reason.
- Chunker.GetChunkStats: requires `Progresses` of the text, for the same reason.
- Similarity.CosineSelf: requires a positive sum of squares rather than "some component is non-zero". Over the reals the two are the same, but the solver cannot bridge them without nonlinear reasoning the model does not carry.
- Similarity.EuclidMetric: does not state that a zero distance implies equal vectors, for the same nonlinear-arithmetic reason.
- Similarity.EuclidExamples: states `sqrt(2)` for the test's `1.414`, since the model has no numeric square root.
- Embedders.EmbeddingCache.Insert: the evicted key is any key of a full cache, not the hash map's first key.
- The defaults `ChunkingConfig::default()` (1000/100/true) and `VectorStoreConfig::default()` (`stable_memory`, `Some(10000)`, true) are the constants `Config.DefaultChunking` and `Config.DefaultVectorStore`, used by `Config.CreateDefaultConfig`; they need no lemma of their own.

## Findings

| source | as written | input that shows it | evidently intended | confidence | as-written member | corrected member |
|---|---|---|---|---|---|---|
| contrag-rust/contrag-core/src/context_builder.rs:78-102 | `validate_config` accepts any `overlap < chunk_size`. The chunk loop restarts at `actual_end - overlap`, and a boundary snap can pull `actual_end` back by up to 50 characters. When the snap lands at or before `start + overlap`, `start` never increases and the loop pushes chunks for ever. | chunk size 20, overlap 10 (accepted by `validate_config`), text `"a "` followed by 30 `b`s: the first chunk ends at 2 and the next start is 0 again | a configuration that passes validation chunks every text; requiring `overlap + 50 <= chunk_size` in validation ensures this | not executed | `Chunker.ChunkLoopStuckExample` | `Chunker.ValidatedConfigChunks` |

The corrected validation is `Chunker.ValidateConfigForChunker`. It runs `validate_config` and then also rejects `overlap + 50 > chunk_size` with `WindowTooSmall`. `Chunker.ValidatedConfigChunks` proves two things about it. First, it accepts exactly what `validate_config` accepts and whose window fits. Second, everything it accepts satisfies the `Progresses` precondition of `Chunker.ChunkText` for every text. The default configuration passes it (`Chunker.DefaultChunkingFits`).
