/**
 * The embedding cache of contrag-core (embedders/mod.rs): a bounded map from
 * text to embedding, and the wrapper that answers a batch of texts from the
 * cache and sends only the misses to the embedder.
 *
 * The embedder itself (an HTTP service) is the function `embed` from the
 * texts it is sent to its answer. When the cache is full, `insert` evicts
 * whichever key the map yields first; which one that is depends on hashing,
 * so the model lets the evicted key be any key of the cache.
 */
module Embedders {
  import opened Types
  import opened Sorting

  type Cache = map<string, Embedding>

  /** `cache.get(text)`. */
  function Lookup(c: Cache, t: string): Option<Embedding> {
    if t in c then Some(c[t]) else None
  }

  /** The capacity the cache keeps to: `max_size`, but never below one entry. */
  function Bound(maxSize: nat): nat {
    if maxSize == 0 then 1 else maxSize
  }

  /**
   * The eviction choices `insert` may make: some key of the cache when it
   * holds `max_size` entries or more (and is not empty), none otherwise.
   */
  predicate ChoosesVictim(c: Cache, maxSize: nat, victim: Option<string>) {
    if |c| >= maxSize && |c| > 0 then victim.Some? && victim.value in c else victim.None?
  }

  /** `insert(t, e)` once the victim is chosen. */
  function InsertOp(c: Cache, victim: Option<string>, t: string, e: Embedding): Cache {
    (if victim.Some? then c - {victim.value} else c)[t := e]
  }

  class EmbeddingCache {
    var cache: Cache
    const maxSize: nat

    ghost predicate Valid()
      reads this
    {
      |cache| <= Bound(maxSize)
    }

    /** `EmbeddingCache::new(max_size)`: empty. */
    constructor (maxSize: nat)
      ensures this.maxSize == maxSize && cache == map[] && Valid()
    {
      this.maxSize := maxSize;
      cache := map[];
    }

    method Get(text: string) returns (r: Option<Embedding>)
      ensures r == Lookup(cache, text)
    {
      r := if text in cache then Some(cache[text]) else None;
    }

    /** `insert`; `victim` reports the key evicted, if any. */
    method Insert(text: string, embedding: Embedding) returns (ghost victim: Option<string>)
      requires Valid()
      modifies this
      ensures Valid()
      ensures ChoosesVictim(old(cache), maxSize, victim)
      ensures cache == InsertOp(old(cache), victim, text, embedding)
    {
      ghost var c := cache;
      victim := None;
      if |cache| >= maxSize {
        if cache != map[] {
          var first :| first in cache;
          cache := cache - {first};
          victim := Some(first);
        }
      }
      cache := cache[text := embedding];
      InsertBound(c, maxSize, victim, text, embedding);
    }

    /** The inserts of the embedder's answers, one pair at a time. */
    method InsertAll(ps: seq<(string, Embedding)>) returns (ghost victims: seq<Option<string>>)
      requires Valid()
      modifies this
      ensures Valid() && |victims| == |ps|
      ensures VictimsOk(old(cache), maxSize, ps, victims)
      ensures cache == InsertSeq(old(cache), ps, victims)
    {
      victims := [];
      for j := 0 to |ps|
        invariant Valid() && |victims| == j
        invariant VictimsOk(old(cache), maxSize, ps[..j], victims)
        invariant cache == InsertSeq(old(cache), ps[..j], victims)
      {
        assert ps[..j + 1][..j] == ps[..j] && ps[..j + 1][j] == ps[j];
        ghost var v := Insert(ps[j].0, ps[j].1);
        assert (victims + [v])[..j] == victims;
        victims := victims + [v];
      }
      assert ps[..|ps|] == ps;
    }

    method Clear()
      modifies this
      ensures cache == map[] && Valid()
    {
      cache := map[];
    }
  }

  /**
   * After `insert(t, e)` the cache maps `t` to `e`; every other key keeps its
   * value except the victim, which is only taken from a full cache and is
   * then gone (unless it was `t`); nothing else is added or removed.
   */
  lemma InsertSpec(c: Cache, maxSize: nat, victim: Option<string>, t: string, e: Embedding)
    requires ChoosesVictim(c, maxSize, victim)
    ensures var c' := InsertOp(c, victim, t, e);
      Lookup(c', t) == Some(e)
      && (forall k :: k != t && victim != Some(k) ==> Lookup(c', k) == Lookup(c, k))
      && (victim.Some? ==> |c| >= maxSize && victim.value in c && (victim.value != t ==> victim.value !in c'))
      && (victim.None? ==> c' == c[t := e])
      && c'.Keys == (c.Keys - (if victim.Some? then {victim.value} else {})) + {t}
  {
  }

  /** The size bound is kept by every insert. */
  lemma InsertBound(c: Cache, maxSize: nat, victim: Option<string>, t: string, e: Embedding)
    requires |c| <= Bound(maxSize) && ChoosesVictim(c, maxSize, victim)
    ensures |InsertOp(c, victim, t, e)| <= Bound(maxSize)
  {
    var d := if victim.Some? then c - {victim.value} else c;
    if victim.Some? {
      assert d.Keys == c.Keys - {victim.value};
      assert |d.Keys| == |c.Keys| - 1;
    } else {
      assert |c| < maxSize || |c| == 0;
    }
    assert d[t := e].Keys == d.Keys + {t};
    assert |d.Keys + {t}| <= |d.Keys| + 1;
  }

  /** An insert into a cache that is not full evicts nothing. */
  lemma InsertNotFull(c: Cache, maxSize: nat, victim: Option<string>, t: string, e: Embedding)
    requires ChoosesVictim(c, maxSize, victim) && |c| < maxSize
    ensures InsertOp(c, victim, t, e) == c[t := e]
  {
  }

  // ---------------------------------------------------------------------
  // The batch split into cache hits and misses

  /** The texts not in the cache, in input order, repetitions kept. */
  function Misses(c: Cache, texts: seq<string>): (r: seq<string>)
    ensures |r| <= |texts|
  {
    if texts == [] then []
    else (if texts[0] in c then [] else [texts[0]]) + Misses(c, texts[1..])
  }

  /** The positions (counted from `base`) of the misses. */
  function MissIndices(c: Cache, texts: seq<string>, base: nat): seq<nat> {
    if texts == [] then []
    else (if texts[0] in c then [] else [base]) + MissIndices(c, texts[1..], base + 1)
  }

  /** `(position, cached embedding)` for each hit. */
  function HitPairs(c: Cache, texts: seq<string>, base: nat): seq<(nat, Embedding)> {
    if texts == [] then []
    else (if texts[0] in c then [(base, c[texts[0]])] else []) + HitPairs(c, texts[1..], base + 1)
  }

  /** Rust's `zip`: pairs up to the shorter length. */
  function Zip<A, B>(a: seq<A>, b: seq<B>): (r: seq<(A, B)>)
    ensures |r| == if |a| <= |b| then |a| else |b|
  {
    var n := if |a| <= |b| then |a| else |b|;
    seq(n, j requires 0 <= j < n => (a[j], b[j]))
  }

  /**
   * The results in input order: each hit with its cached embedding, each miss
   * with the next embedding of the embedder's answer while there is one.
   */
  function AllPairs(c: Cache, texts: seq<string>, base: nat, embs: seq<Embedding>): seq<(nat, Embedding)>
    decreases texts
  {
    if texts == [] then []
    else if texts[0] in c then [(base, c[texts[0]])] + AllPairs(c, texts[1..], base + 1, embs)
    else if embs == [] then AllPairs(c, texts[1..], base + 1, [])
    else [(base, embs[0])] + AllPairs(c, texts[1..], base + 1, embs[1..])
  }

  function Seconds<A, B>(ps: seq<(A, B)>): seq<B> {
    seq(|ps|, j requires 0 <= j < |ps| => ps[j].1)
  }

  /** The embeddings `embed_with_cache` returns, once the embedder answered `embs`. */
  function Assemble(c: Cache, texts: seq<string>, embs: seq<Embedding>): seq<Embedding> {
    Seconds(AllPairs(c, texts, 0, embs))
  }

  /**
   * Which miss a missing position is: the miss at position `i` is the
   * `MissRank`-th text sent to the embedder.
   */
  function MissRank(c: Cache, texts: seq<string>, i: nat): (r: nat)
    requires i < |texts|
    ensures texts[i] !in c ==> r < |Misses(c, texts)| && Misses(c, texts)[r] == texts[i]
    decreases texts
  {
    if i == 0 then 0
    else (if texts[0] in c then 0 else 1) + MissRank(c, texts[1..], i - 1)
  }

  /** What the embedder answers for this batch: nothing is asked when all texts hit. */
  function EmbeddingsFor(embed: seq<string> -> Result<seq<Embedding>>, c: Cache, texts: seq<string>): Result<seq<Embedding>> {
    if Misses(c, texts) == [] then Ok([]) else embed(Misses(c, texts))
  }

  /** `embed_with_cache`: an embedder error is passed on, otherwise the assembled results. */
  function EmbedWithCacheOp(embed: seq<string> -> Result<seq<Embedding>>, c: Cache, texts: seq<string>): Result<seq<Embedding>> {
    match EmbeddingsFor(embed, c, texts)
    case Err(e) => Err(e)
    case Ok(embs) => Ok(Assemble(c, texts, embs))
  }

  /** The cache after inserting the pairs `ps` in order, with these eviction choices. */
  function InsertSeq(c: Cache, ps: seq<(string, Embedding)>, victims: seq<Option<string>>): Cache
    requires |victims| == |ps|
  {
    if ps == [] then c
    else
      var n := |ps| - 1;
      InsertOp(InsertSeq(c, ps[..n], victims[..n]), victims[n], ps[n].0, ps[n].1)
  }

  /** Each eviction choice is one `insert` may make at its step. */
  predicate VictimsOk(c: Cache, maxSize: nat, ps: seq<(string, Embedding)>, victims: seq<Option<string>>)
    requires |victims| == |ps|
  {
    ps == [] || (
      var n := |ps| - 1;
      VictimsOk(c, maxSize, ps[..n], victims[..n])
      && ChoosesVictim(InsertSeq(c, ps[..n], victims[..n]), maxSize, victims[n]))
  }

  class CachedEmbedder {
    const embed: seq<string> -> Result<seq<Embedding>>
    const cache: EmbeddingCache

    /** `CachedEmbedder::new(embedder, cache_size)`. */
    constructor (embed: seq<string> -> Result<seq<Embedding>>, cacheSize: nat)
      ensures this.embed == embed && fresh(cache)
      ensures cache.maxSize == cacheSize && cache.cache == map[] && cache.Valid()
    {
      this.embed := embed;
      cache := new EmbeddingCache(cacheSize);
    }

    /** The cache lookups: hit pairs, miss texts and miss positions, in input order. */
    method Partition(texts: seq<string>)
      returns (results: seq<(nat, Embedding)>, toEmbed: seq<string>, indices: seq<nat>)
      ensures results == HitPairs(cache.cache, texts, 0)
      ensures toEmbed == Misses(cache.cache, texts)
      ensures indices == MissIndices(cache.cache, texts, 0)
    {
      results, toEmbed, indices := [], [], [];
      for idx := 0 to |texts|
        invariant results == HitPairs(cache.cache, texts[..idx], 0)
        invariant toEmbed == Misses(cache.cache, texts[..idx])
        invariant indices == MissIndices(cache.cache, texts[..idx], 0)
      {
        ScanSnoc(cache.cache, texts[..idx], texts[idx], 0);
        assert texts[..idx + 1] == texts[..idx] + [texts[idx]];
        var cached := cache.Get(texts[idx]);
        if cached.Some? {
          results := results + [(idx, cached.value)];
        } else {
          toEmbed := toEmbed + [texts[idx]];
          indices := indices + [idx];
        }
      }
      assert texts[..|texts|] == texts;
    }

    /**
     * `embed_with_cache`. `calls` lists the batches sent to the embedder and
     * `victims` the keys the inserts evicted.
     */
    method EmbedWithCache(texts: seq<string>)
      returns (r: Result<seq<Embedding>>, ghost calls: seq<seq<string>>, ghost victims: seq<Option<string>>)
      requires cache.Valid()
      modifies cache
      ensures cache.Valid()
      ensures r == EmbedWithCacheOp(embed, old(cache.cache), texts)
      ensures calls == if Misses(old(cache.cache), texts) == [] then [] else [Misses(old(cache.cache), texts)]
      ensures r.Err? ==> cache.cache == old(cache.cache)
      ensures r.Ok? ==>
        var ps := Zip(Misses(old(cache.cache), texts), EmbeddingsFor(embed, old(cache.cache), texts).value);
        |victims| == |ps|
        && VictimsOk(old(cache.cache), cache.maxSize, ps, victims)
        && cache.cache == InsertSeq(old(cache.cache), ps, victims)
    {
      ghost var c := cache.cache;
      var results, toEmbed, indices := Partition(texts);
      calls := [];
      victims := [];
      var embs: seq<Embedding> := [];
      if toEmbed != [] {
        calls := [toEmbed];
        var answer := embed(toEmbed);
        if answer.Err? {
          return Err(answer.error), calls, victims;
        }
        embs := answer.value;
        victims := cache.InsertAll(Zip(toEmbed, embs));
        results := AppendZip(results, indices, embs);
      }
      assert results == HitPairs(c, texts, 0) + Zip(MissIndices(c, texts, 0), embs);
      var out := Reassemble(results);
      SortedPairs(c, texts, embs, results);
      r := Ok(out);
    }
  }

  /** The miss results, position with embedding, after the hits. */
  method AppendZip(results: seq<(nat, Embedding)>, indices: seq<nat>, embs: seq<Embedding>)
    returns (r: seq<(nat, Embedding)>)
    ensures r == results + Zip(indices, embs)
  {
    r := results;
    var zs := Zip(indices, embs);
    for j := 0 to |zs|
      invariant r == results + zs[..j]
    {
      assert zs[..j + 1] == zs[..j] + [zs[j]];
      r := r + [(indices[j], embs[j])];
    }
    assert zs[..|zs|] == zs;
  }

  /** `results.sort_by_key(idx)` and the projection to the embeddings. */
  method Reassemble(results: seq<(nat, Embedding)>) returns (out: seq<Embedding>)
    ensures out == Seconds(SortBy(results, Idx))
  {
    var sorted := SortBy(results, Idx);
    out := [];
    for j := 0 to |sorted|
      invariant |out| == j
      invariant forall l :: 0 <= l < j ==> out[l] == sorted[l].1
    {
      out := out + [sorted[j].1];
    }
  }

  function Idx(p: (nat, Embedding)): real {
    p.0 as real
  }

  // ---------------------------------------------------------------------
  // Proofs about the scan and the reassembly

  /** One more text extends the hits, the misses and their positions at the end. */
  lemma ScanSnoc(c: Cache, a: seq<string>, x: string, base: nat)
    ensures HitPairs(c, a + [x], base) == HitPairs(c, a, base) + (if x in c then [(base + |a|, c[x])] else [])
    ensures MissIndices(c, a + [x], base) == MissIndices(c, a, base) + (if x in c then [] else [base + |a|])
    ensures Misses(c, a + [x]) == Misses(c, a) + (if x in c then [] else [x])
  {
    HitPairsSnoc(c, a, x, base);
    MissIndicesSnoc(c, a, x, base);
    MissesSnoc(c, a, x);
  }

  lemma {:induction false} HitPairsSnoc(c: Cache, a: seq<string>, x: string, base: nat)
    ensures HitPairs(c, a + [x], base) == HitPairs(c, a, base) + (if x in c then [(base + |a|, c[x])] else [])
    decreases |a|
  {
    if a == [] {
      assert [x][1..] == [];
    } else {
      var h: seq<(nat, Embedding)> := if a[0] in c then [(base, c[a[0]])] else [];
      var t: seq<(nat, Embedding)> := if x in c then [(base + |a|, c[x])] else [];
      assert (a + [x])[0] == a[0] && (a + [x])[1..] == a[1..] + [x];
      assert HitPairs(c, a + [x], base) == h + HitPairs(c, a[1..] + [x], base + 1);
      HitPairsSnoc(c, a[1..], x, base + 1);
      assert HitPairs(c, a, base) == h + HitPairs(c, a[1..], base + 1);
      assert h + (HitPairs(c, a[1..], base + 1) + t) == (h + HitPairs(c, a[1..], base + 1)) + t;
    }
  }

  lemma {:induction false} MissIndicesSnoc(c: Cache, a: seq<string>, x: string, base: nat)
    ensures MissIndices(c, a + [x], base) == MissIndices(c, a, base) + (if x in c then [] else [base + |a|])
    decreases |a|
  {
    if a == [] {
      assert [x][1..] == [];
    } else {
      assert (a + [x])[0] == a[0] && (a + [x])[1..] == a[1..] + [x];
      MissIndicesSnoc(c, a[1..], x, base + 1);
    }
  }

  lemma {:induction false} MissesSnoc(c: Cache, a: seq<string>, x: string)
    ensures Misses(c, a + [x]) == Misses(c, a) + (if x in c then [] else [x])
    decreases |a|
  {
    if a == [] {
      assert [x][1..] == [];
    } else {
      assert (a + [x])[0] == a[0] && (a + [x])[1..] == a[1..] + [x];
      MissesSnoc(c, a[1..], x);
    }
  }

  /** The reassembled pairs are the hit pairs and the zipped miss pairs, rearranged. */
  lemma {:induction false} PairsPermute(c: Cache, texts: seq<string>, base: nat, embs: seq<Embedding>)
    ensures PermutesAt(c, texts, base, embs)
    decreases texts
  {
    if texts == [] {
      assert Zip(MissIndices(c, texts, base), embs) == [];
    } else if texts[0] in c {
      PairsPermute(c, texts[1..], base + 1, embs);
      PermuteHit(c, texts, base, embs);
    } else if embs == [] {
      PairsPermute(c, texts[1..], base + 1, []);
      PermuteUnanswered(c, texts, base);
    } else {
      PairsPermute(c, texts[1..], base + 1, embs[1..]);
      PermuteAnswered(c, texts, base, embs);
    }
  }

  /** The reassembled pairs are the hit pairs and the zipped miss pairs, rearranged. */
  predicate PermutesAt(c: Cache, texts: seq<string>, base: nat, embs: seq<Embedding>) {
    multiset(AllPairs(c, texts, base, embs))
      == multiset(HitPairs(c, texts, base)) + multiset(Zip(MissIndices(c, texts, base), embs))
  }

  lemma PermuteHit(c: Cache, texts: seq<string>, base: nat, embs: seq<Embedding>)
    requires texts != [] && texts[0] in c
    requires PermutesAt(c, texts[1..], base + 1, embs)
    ensures PermutesAt(c, texts, base, embs)
  {
    var p := (base, c[texts[0]]);
    assert AllPairs(c, texts, base, embs) == [p] + AllPairs(c, texts[1..], base + 1, embs);
    assert HitPairs(c, texts, base) == [p] + HitPairs(c, texts[1..], base + 1);
    assert MissIndices(c, texts, base) == MissIndices(c, texts[1..], base + 1);
  }

  lemma PermuteUnanswered(c: Cache, texts: seq<string>, base: nat)
    requires texts != [] && texts[0] !in c
    requires PermutesAt(c, texts[1..], base + 1, [])
    ensures PermutesAt(c, texts, base, [])
  {
    assert AllPairs(c, texts, base, []) == AllPairs(c, texts[1..], base + 1, []);
    assert HitPairs(c, texts, base) == HitPairs(c, texts[1..], base + 1);
    var none: seq<Embedding> := [];
    assert Zip(MissIndices(c, texts, base), none) == [] == Zip(MissIndices(c, texts[1..], base + 1), none);
  }

  lemma PermuteAnswered(c: Cache, texts: seq<string>, base: nat, embs: seq<Embedding>)
    requires texts != [] && texts[0] !in c && embs != []
    requires PermutesAt(c, texts[1..], base + 1, embs[1..])
    ensures PermutesAt(c, texts, base, embs)
  {
    var p := (base, embs[0]);
    var mi := MissIndices(c, texts[1..], base + 1);
    assert AllPairs(c, texts, base, embs) == [p] + AllPairs(c, texts[1..], base + 1, embs[1..]);
    assert HitPairs(c, texts, base) == HitPairs(c, texts[1..], base + 1);
    assert MissIndices(c, texts, base) == [base] + mi;
    ZipCons(base, mi, embs);
  }

  lemma ZipCons<A, B>(x: A, a: seq<A>, b: seq<B>)
    requires b != []
    ensures Zip([x] + a, b) == [(x, b[0])] + Zip(a, b[1..])
  {
    var l := Zip([x] + a, b);
    var r := [(x, b[0])] + Zip(a, b[1..]);
    assert |l| == |r|;
    forall j | 0 <= j < |l| ensures l[j] == r[j] {
      if j > 0 {
        assert ([x] + a)[j] == a[j - 1];
      }
    }
  }

  /** The reassembled pairs are in increasing order of position, all from `base` on. */
  lemma {:induction false} PairsOrdered(c: Cache, texts: seq<string>, base: nat, embs: seq<Embedding>)
    ensures forall k :: 0 <= k < |AllPairs(c, texts, base, embs)| ==> AllPairs(c, texts, base, embs)[k].0 >= base
    ensures StrictlySortedBy(AllPairs(c, texts, base, embs), Idx)
    decreases texts
  {
    if texts != [] {
      var embs' := if texts[0] in c || embs == [] then embs else embs[1..];
      var embs'' := if texts[0] !in c && embs == [] then [] else embs';
      PairsOrdered(c, texts[1..], base + 1, embs'');
    }
  }

  /** Sorting the collected pairs by position yields exactly the reassembled pairs. */
  lemma SortedPairs(c: Cache, texts: seq<string>, embs: seq<Embedding>, results: seq<(nat, Embedding)>)
    requires results == HitPairs(c, texts, 0) + Zip(MissIndices(c, texts, 0), embs)
    ensures Seconds(SortBy(results, Idx)) == Assemble(c, texts, embs)
  {
    var sorted := SortBy(results, Idx);
    SortByPermutes(results, Idx);
    SortBySorted(results, Idx);
    PairsPermute(c, texts, 0, embs);
    PairsOrdered(c, texts, 0, embs);
    SortedUnique(sorted, AllPairs(c, texts, 0, embs), Idx);
  }

  /**
   * When the embedder answers at least one embedding per miss, the pair at
   * position `i` is `i` with the cached embedding of a hit, or the answer to
   * that miss.
   */
  lemma {:induction false} AllPairsSpec(c: Cache, texts: seq<string>, base: nat, embs: seq<Embedding>)
    requires |embs| >= |Misses(c, texts)|
    ensures |AllPairs(c, texts, base, embs)| == |texts|
    ensures forall i :: 0 <= i < |texts| ==>
      AllPairs(c, texts, base, embs)[i]
        == (base + i, if texts[i] in c then c[texts[i]] else embs[MissRank(c, texts, i)])
  {
    AllPairsLength(c, texts, base, embs);
    forall i | 0 <= i < |texts|
      ensures AllPairs(c, texts, base, embs)[i]
        == (base + i, if texts[i] in c then c[texts[i]] else embs[MissRank(c, texts, i)])
    {
      AllPairsAt(c, texts, base, embs, i);
    }
  }

  /** The pair at one position, given one embedding per miss. */
  lemma {:induction false} AllPairsAt(c: Cache, texts: seq<string>, base: nat, embs: seq<Embedding>, i: nat)
    requires |embs| >= |Misses(c, texts)| && i < |texts|
    requires |AllPairs(c, texts, base, embs)| == |texts|
    ensures AllPairs(c, texts, base, embs)[i].0 == base + i
    ensures texts[i] in c ==> AllPairs(c, texts, base, embs)[i].1 == c[texts[i]]
    ensures texts[i] !in c ==> AllPairs(c, texts, base, embs)[i].1 == embs[MissRank(c, texts, i)]
    decreases i
  {
    var rest := texts[1..];
    var whole := AllPairs(c, texts, base, embs);
    if texts[0] in c {
      assert Misses(c, texts) == Misses(c, rest);
      var tail := AllPairs(c, rest, base + 1, embs);
      assert whole == [(base, c[texts[0]])] + tail;
      if i > 0 {
        assert |tail| == |rest|;
        AllPairsAt(c, rest, base + 1, embs, i - 1);
        assert whole[i] == tail[i - 1];
        assert texts[i] == rest[i - 1];
        assert MissRank(c, texts, i) == MissRank(c, rest, i - 1);
      }
    } else {
      assert Misses(c, texts) == [texts[0]] + Misses(c, rest);
      var embs' := embs[1..];
      var tail := AllPairs(c, rest, base + 1, embs');
      assert whole == [(base, embs[0])] + tail;
      if i == 0 {
        assert MissRank(c, texts, 0) == 0;
      } else {
        assert |tail| == |rest|;
        AllPairsAt(c, rest, base + 1, embs', i - 1);
        assert whole[i] == tail[i - 1];
        assert texts[i] == rest[i - 1];
        var r' := MissRank(c, rest, i - 1);
        assert MissRank(c, texts, i) == 1 + r';
        if rest[i - 1] !in c {
          assert r' < |Misses(c, rest)| <= |embs'|;
          assert embs[1 + r'] == embs'[r'];
        }
      }
    }
  }

  /** How many results there are: every hit, and as many misses as the embedder answered. */
  lemma {:induction false} AllPairsLength(c: Cache, texts: seq<string>, base: nat, embs: seq<Embedding>)
    ensures |AllPairs(c, texts, base, embs)|
      == |texts| - |Misses(c, texts)| + (if |embs| <= |Misses(c, texts)| then |embs| else |Misses(c, texts)|)
    decreases texts
  {
    if texts != [] {
      if texts[0] in c {
        AllPairsLength(c, texts[1..], base + 1, embs);
      } else if embs == [] {
        AllPairsLength(c, texts[1..], base + 1, []);
      } else {
        AllPairsLength(c, texts[1..], base + 1, embs[1..]);
      }
    }
  }

  /**
   * With one embedding per miss, the output has the input's length and
   * position `i` holds the cached embedding of a hit or the embedder's answer
   * for that miss.
   */
  lemma AssembleSpec(c: Cache, texts: seq<string>, embs: seq<Embedding>)
    requires |embs| >= |Misses(c, texts)|
    ensures |Assemble(c, texts, embs)| == |texts|
    ensures forall i :: 0 <= i < |texts| ==>
      Assemble(c, texts, embs)[i] == if texts[i] in c then c[texts[i]] else embs[MissRank(c, texts, i)]
  {
    AllPairsSpec(c, texts, 0, embs);
  }

  /** A short answer from the embedder shortens the output by the missing embeddings. */
  lemma AssembleLength(c: Cache, texts: seq<string>, embs: seq<Embedding>)
    requires |embs| < |Misses(c, texts)|
    ensures |Assemble(c, texts, embs)| == |texts| - (|Misses(c, texts)| - |embs|)
  {
    AllPairsLength(c, texts, 0, embs);
  }

  /** Nothing is sent to the embedder exactly when every text is cached. */
  lemma {:induction false} NoMissesIffAllCached(c: Cache, texts: seq<string>)
    ensures Misses(c, texts) == [] <==> forall i :: 0 <= i < |texts| ==> texts[i] in c
    decreases texts
  {
    if texts != [] {
      NoMissesIffAllCached(c, texts[1..]);
      if forall i :: 0 <= i < |texts[1..]| ==> texts[1..][i] in c {
        assert forall i :: 1 <= i < |texts| ==> texts[i] in c by {
          forall i | 1 <= i < |texts| ensures texts[i] in c {
            assert texts[i] == texts[1..][i - 1];
          }
        }
      }
    }
  }

  /** When every text hits, the answer is the cached embeddings, in order. */
  lemma AllCachedAnswer(embed: seq<string> -> Result<seq<Embedding>>, c: Cache, texts: seq<string>)
    requires forall i :: 0 <= i < |texts| ==> texts[i] in c
    ensures EmbedWithCacheOp(embed, c, texts).Ok?
    ensures EmbedWithCacheOp(embed, c, texts).value == seq(|texts|, i requires 0 <= i < |texts| => c[texts[i]])
  {
    NoMissesIffAllCached(c, texts);
    AssembleSpec(c, texts, []);
  }

  /** An embedder error is the result; no embedding is returned. */
  lemma EmbedderErrorPassedOn(embed: seq<string> -> Result<seq<Embedding>>, c: Cache, texts: seq<string>)
    requires Misses(c, texts) != [] && embed(Misses(c, texts)).Err?
    ensures EmbedWithCacheOp(embed, c, texts) == Err(embed(Misses(c, texts)).error)
  {
  }

  /** Repeated misses are all sent: there is no de-duplication. */
  lemma MissesNotDeduplicated()
    ensures Misses(map[], ["a", "b", "a"]) == ["a", "b", "a"]
  {
  }

  /** After a sequence of inserts, the last inserted text maps to its embedding. */
  lemma LastInsertKept(c: Cache, maxSize: nat, ps: seq<(string, Embedding)>, victims: seq<Option<string>>)
    requires |victims| == |ps| && ps != []
    ensures Lookup(InsertSeq(c, ps, victims), ps[|ps| - 1].0) == Some(ps[|ps| - 1].1)
  {
  }

  /** A sequence of inserts keeps the size bound. */
  lemma {:induction false} InsertSeqBound(c: Cache, maxSize: nat, ps: seq<(string, Embedding)>, victims: seq<Option<string>>)
    requires |victims| == |ps| && |c| <= Bound(maxSize)
    requires VictimsOk(c, maxSize, ps, victims)
    ensures |InsertSeq(c, ps, victims)| <= Bound(maxSize)
    decreases |ps|
  {
    if ps != [] {
      var n := |ps| - 1;
      InsertSeqBound(c, maxSize, ps[..n], victims[..n]);
      InsertBound(InsertSeq(c, ps[..n], victims[..n]), maxSize, victims[n], ps[n].0, ps[n].1);
    }
  }
}
