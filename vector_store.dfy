/**
 * The in-memory vector store of contrag-core
 * (vector_store/stable_memory_store.rs): a map from namespace to the vectors
 * stored under it, in insertion order, plus the list of namespaces in the
 * order they were first used.
 *
 * The pure operations on `StoreState` say what each store method does; the
 * class `StableMemoryVectorStore` holds the two fields the source mutates
 * and each of its methods is proved to perform the matching operation.
 */
module VectorStore {
  import opened Types
  import opened Sorting
  import opened Similarity

  /** The flattened record the store keeps (the metadata's `custom` is dropped). */
  datatype StoredVector = StoredVector(
    id: string,
    embedding: Embedding,
    text: string,
    entityType: string,
    entityId: string,
    chunkIndex: nat,
    totalChunks: nat,
    timestamp: nat)

  function ToStored(v: Vector): (sv: StoredVector)
    ensures sv.id == v.id && sv.embedding == v.embedding && sv.text == v.text
    ensures sv.entityType == v.metadata.entityType && sv.entityId == v.metadata.entityId
    ensures sv.chunkIndex == v.metadata.chunkIndex && sv.totalChunks == v.metadata.totalChunks
    ensures sv.timestamp == v.metadata.timestamp
  {
    StoredVector(v.id, v.embedding, v.text, v.metadata.entityType, v.metadata.entityId,
      v.metadata.chunkIndex, v.metadata.totalChunks, v.metadata.timestamp)
  }

  /** The contents of a store: the vectors map and the namespaces list. */
  datatype StoreState = StoreState(vectors: map<string, seq<StoredVector>>, namespaces: seq<string>)

  const Empty := StoreState(map[], [])

  predicate NoDup<T(==)>(s: seq<T>) {
    forall i, j :: 0 <= i < j < |s| ==> s[i] != s[j]
  }

  /**
   * What every reachable state satisfies: the namespaces list names each key
   * of the map exactly once.
   */
  predicate Inv(st: StoreState) {
    NoDup(st.namespaces) && (set n | n in st.namespaces) == st.vectors.Keys
  }

  /** The vectors of a namespace, none when it is absent. */
  function VectorsIn(st: StoreState, ns: string): seq<StoredVector> {
    if ns in st.vectors then st.vectors[ns] else []
  }

  /** `store`: append to the namespace (creating it) and record a new namespace last. */
  function StoreOp(st: StoreState, ns: string, v: Vector): StoreState {
    StoreState(
      st.vectors[ns := VectorsIn(st, ns) + [ToStored(v)]],
      if ns in st.namespaces then st.namespaces else st.namespaces + [ns])
  }

  /** `store_batch` of the in-memory store: every vector stored, in order. */
  function StoreBatchOp(st: StoreState, ns: string, vs: seq<Vector>): StoreState
    decreases |vs|
  {
    if vs == [] then st else StoreBatchOp(StoreOp(st, ns, vs[0]), ns, vs[1..])
  }

  /** The retain predicate of `delete`. */
  function OtherId(id: string): StoredVector -> bool {
    (sv: StoredVector) => sv.id != id
  }

  /** The retain predicate of `delete_namespace`. */
  function OtherName(ns: string): string -> bool {
    (n: string) => n != ns
  }

  /** `delete`: drop every vector with this id from the namespace, if it exists. */
  function DeleteOp(st: StoreState, ns: string, id: string): StoreState {
    if ns in st.vectors then StoreState(st.vectors[ns := Filter(st.vectors[ns], OtherId(id))], st.namespaces)
    else st
  }

  /** `delete_namespace`: forget the namespace and its vectors. */
  function DeleteNamespaceOp(st: StoreState, ns: string): StoreState {
    StoreState(st.vectors - {ns}, Filter(st.namespaces, OtherName(ns)))
  }

  /** `count`: the number of vectors in the namespace, 0 when absent. */
  function CountOp(st: StoreState, ns: string): nat {
    |VectorsIn(st, ns)|
  }

  /** A stored vector with its similarity to the query and its position in the namespace. */
  datatype Scored = Scored(score: real, pos: nat, sv: StoredVector)

  function NegScore(e: Scored): real {
    -e.score
  }

  function Pos(e: Scored): int {
    e.pos
  }

  /** The `(similarity, vector)` pairs, in storage order. */
  function ScoreAll(sqrt: real -> real, q: Embedding, vs: seq<StoredVector>): seq<Scored> {
    seq(|vs|, i requires 0 <= i < |vs| => Scored(Cosine(sqrt, q, vs[i].embedding), i, vs[i]))
  }

  /** The pairs stably sorted by descending similarity. */
  function Ranked(sqrt: real -> real, q: Embedding, vs: seq<StoredVector>): seq<Scored> {
    SortBy(ScoreAll(sqrt, q, vs), NegScore)
  }

  /** A pair as a `SearchResult`; `custom` is always `None`. */
  function ToResult(e: Scored): SearchResult {
    SearchResult(e.sv.id, e.sv.text, e.score,
      VectorMetadata(e.sv.entityType, e.sv.entityId, e.sv.chunkIndex, e.sv.totalChunks, e.sv.timestamp, None))
  }

  function Min(a: nat, b: nat): nat {
    if a <= b then a else b
  }

  /** The first `k` pairs as results. */
  function TakeResults(r: seq<Scored>, k: nat): seq<SearchResult> {
    seq(Min(k, |r|), i requires 0 <= i < Min(k, |r|) => ToResult(r[i]))
  }

  /** `search`: the `k` stored vectors most similar to the query. */
  function SearchOp(sqrt: real -> real, st: StoreState, ns: string, q: Embedding, k: nat): Result<seq<SearchResult>> {
    if ns !in st.vectors then Err(VectorStoreError("Namespace not found: " + ns))
    else if st.vectors[ns] == [] then Ok([])
    else Ok(TakeResults(Ranked(sqrt, q, st.vectors[ns]), k))
  }

  class StableMemoryVectorStore {
    var vectors: map<string, seq<StoredVector>>
    var namespaces: seq<string>

    function State(): StoreState
      reads this
    {
      StoreState(vectors, namespaces)
    }

    ghost predicate Valid()
      reads this
    {
      Inv(State())
    }

    /** `new`: no namespaces. */
    constructor ()
      ensures State() == Empty && Valid()
    {
      vectors := map[];
      namespaces := [];
    }

    method Store(ns: string, v: Vector) returns (r: Result<()>)
      requires Valid()
      modifies this
      ensures Valid()
      ensures r == Ok(()) && State() == StoreOp(old(State()), ns, v)
    {
      var stored := ToStored(v);
      var existing := if ns in vectors then vectors[ns] else [];
      vectors := vectors[ns := existing + [stored]];
      if ns !in namespaces {
        namespaces := namespaces + [ns];
      }
      StoreKeepsInv(old(State()), ns, v);
      r := Ok(());
    }

    /** `store_batch`: `store` each vector in turn; `store` never fails. */
    method StoreBatch(ns: string, vs: seq<Vector>) returns (r: Result<()>)
      requires Valid()
      modifies this
      ensures Valid()
      ensures r == Ok(()) && State() == StoreBatchOp(old(State()), ns, vs)
    {
      for i := 0 to |vs|
        invariant Valid()
        invariant StoreBatchOp(State(), ns, vs[i..]) == StoreBatchOp(old(State()), ns, vs)
      {
        assert vs[i..][1..] == vs[i + 1..];
        var _ := Store(ns, vs[i]);
      }
      r := Ok(());
    }

    method Search(sqrt: real -> real, ns: string, q: Embedding, k: nat) returns (r: Result<seq<SearchResult>>)
      ensures r == SearchOp(sqrt, State(), ns, q, k)
    {
      if ns !in vectors {
        return Err(VectorStoreError("Namespace not found: " + ns));
      }
      var vs := vectors[ns];
      if |vs| == 0 {
        return Ok([]);
      }
      var scored: seq<Scored> := [];
      for i := 0 to |vs|
        invariant |scored| == i
        invariant forall j :: 0 <= j < i ==> scored[j] == Scored(Cosine(sqrt, q, vs[j].embedding), j, vs[j])
      {
        scored := scored + [Scored(Cosine(sqrt, q, vs[i].embedding), i, vs[i])];
      }
      assert scored == ScoreAll(sqrt, q, vs);
      var ranked := SortBy(scored, NegScore);
      var m := if k <= |ranked| then k else |ranked|;
      var out: seq<SearchResult> := [];
      for i := 0 to m
        invariant |out| == i
        invariant forall j :: 0 <= j < i ==> out[j] == ToResult(ranked[j])
      {
        out := out + [ToResult(ranked[i])];
      }
      assert out == TakeResults(ranked, k);
      r := Ok(out);
    }

    method Delete(ns: string, id: string) returns (r: Result<()>)
      requires Valid()
      modifies this
      ensures Valid()
      ensures r == Ok(()) && State() == DeleteOp(old(State()), ns, id)
    {
      if ns in vectors {
        var kept := Retain(vectors[ns], OtherId(id));
        vectors := vectors[ns := kept];
      }
      r := Ok(());
    }

    method DeleteNamespace(ns: string) returns (r: Result<()>)
      requires Valid()
      modifies this
      ensures Valid()
      ensures r == Ok(()) && State() == DeleteNamespaceOp(old(State()), ns)
    {
      vectors := vectors - {ns};
      namespaces := Retain(namespaces, OtherName(ns));
      DeleteNamespaceKeepsInv(old(State()), ns);
      r := Ok(());
    }

    method Count(ns: string) returns (r: Result<nat>)
      ensures r == Ok(CountOp(State(), ns))
    {
      r := Ok(if ns in vectors then |vectors[ns]| else 0);
    }

    method ListNamespaces() returns (r: Result<seq<string>>)
      ensures r == Ok(State().namespaces)
    {
      r := Ok(namespaces);
    }
  }

  // ---------------------------------------------------------------------
  // Store

  /**
   * Storing appends the vector to its namespace (duplicates of an id are
   * kept), leaves every other namespace alone, and lists the namespace once,
   * after the existing ones when it is new.
   */
  lemma StoreAppends(st: StoreState, ns: string, v: Vector)
    ensures var st' := StoreOp(st, ns, v);
      VectorsIn(st', ns) == VectorsIn(st, ns) + [ToStored(v)]
      && CountOp(st', ns) == CountOp(st, ns) + 1
      && (forall n :: n != ns ==> VectorsIn(st', n) == VectorsIn(st, n))
      && ns in st'.namespaces
      && (ns in st.namespaces ==> st'.namespaces == st.namespaces)
      && (ns !in st.namespaces ==> st'.namespaces == st.namespaces + [ns])
  {
  }

  lemma StoreKeepsInv(st: StoreState, ns: string, v: Vector)
    requires Inv(st)
    ensures Inv(StoreOp(st, ns, v))
  {
    var st' := StoreOp(st, ns, v);
    if ns !in st.namespaces {
      assert (set n | n in st'.namespaces) == (set n | n in st.namespaces) + {ns};
    }
  }

  /** The in-memory `store_batch` is the default one run with `store` as the step. */
  function StoreStep(ns: string): (StoreState, Vector) -> (StoreState, Result<()>) {
    (st, v) => (StoreOp(st, ns, v), Ok(()))
  }

  lemma {:induction false} StoreBatchIsDefault(st: StoreState, ns: string, vs: seq<Vector>)
    ensures BatchSpec(StoreStep(ns), st, vs) == (StoreBatchOp(st, ns, vs), Ok(()))
    decreases |vs|
  {
    if vs != [] {
      StoreBatchIsDefault(StoreOp(st, ns, vs[0]), ns, vs[1..]);
    }
  }

  /** A batch appends all its vectors, in order, to the namespace. */
  lemma {:induction false} StoreBatchAppends(st: StoreState, ns: string, vs: seq<Vector>)
    ensures VectorsIn(StoreBatchOp(st, ns, vs), ns) == VectorsIn(st, ns) + seq(|vs|, i requires 0 <= i < |vs| => ToStored(vs[i]))
    ensures forall n :: n != ns ==> VectorsIn(StoreBatchOp(st, ns, vs), n) == VectorsIn(st, n)
    decreases |vs|
  {
    if vs != [] {
      var st1 := StoreOp(st, ns, vs[0]);
      StoreBatchAppends(st1, ns, vs[1..]);
      var tail := seq(|vs[1..]|, i requires 0 <= i < |vs[1..]| => ToStored(vs[1..][i]));
      var all := seq(|vs|, i requires 0 <= i < |vs| => ToStored(vs[i]));
      assert all == [ToStored(vs[0])] + tail;
    }
  }

  // ---------------------------------------------------------------------
  // Delete

  /**
   * Deleting removes exactly the vectors with that id from that namespace,
   * keeps the order of the others, and changes nothing else; deleting from
   * an absent namespace does nothing.
   */
  lemma DeleteRemovesId(st: StoreState, ns: string, id: string)
    ensures var st' := DeleteOp(st, ns, id);
      st'.namespaces == st.namespaces
      && st'.vectors.Keys == st.vectors.Keys
      && VectorsIn(st', ns) == Filter(VectorsIn(st, ns), OtherId(id))
      && (forall sv :: sv in VectorsIn(st', ns) <==> sv in VectorsIn(st, ns) && sv.id != id)
      && (forall n :: n != ns ==> VectorsIn(st', n) == VectorsIn(st, n))
      && (ns !in st.vectors ==> st' == st)
  {
    forall sv
      ensures sv in VectorsIn(DeleteOp(st, ns, id), ns) <==> sv in VectorsIn(st, ns) && sv.id != id
    {
      FilterMembers(VectorsIn(st, ns), OtherId(id), sv);
    }
  }

  /** Deleting an id that is not in the namespace changes nothing. */
  lemma DeleteAbsentId(st: StoreState, ns: string, id: string)
    requires forall sv :: sv in VectorsIn(st, ns) ==> sv.id != id
    ensures DeleteOp(st, ns, id) == st
  {
    if ns in st.vectors {
      FilterKeepsAll(st.vectors[ns], OtherId(id));
    }
  }

  /** Deleting the same id twice is the same as deleting it once. */
  lemma DeleteIdempotent(st: StoreState, ns: string, id: string)
    ensures DeleteOp(DeleteOp(st, ns, id), ns, id) == DeleteOp(st, ns, id)
  {
    DeleteRemovesId(st, ns, id);
    DeleteAbsentId(DeleteOp(st, ns, id), ns, id);
  }

  lemma DeleteKeepsInv(st: StoreState, ns: string, id: string)
    requires Inv(st)
    ensures Inv(DeleteOp(st, ns, id))
  {
  }

  // ---------------------------------------------------------------------
  // Delete namespace

  lemma {:induction false} FilterNoDup<T>(s: seq<T>, keep: T -> bool)
    requires NoDup(s)
    ensures NoDup(Filter(s, keep))
  {
    if s != [] {
      var t := Filter(s[1..], keep);
      FilterNoDup(s[1..], keep);
      FilterMembers(s[1..], keep, s[0]);
      forall j | 0 <= j < |s[1..]|
        ensures s[1..][j] != s[0]
      {
        assert s[j + 1] != s[0];
      }
      assert s[0] !in t;
      if keep(s[0]) {
        assert Filter(s, keep) == [s[0]] + t;
      }
    }
  }

  /**
   * After `delete_namespace` the namespace is gone from the map and the
   * list, it counts 0 vectors and searching it fails; every other namespace
   * keeps its vectors and its place in the list.
   */
  lemma DeleteNamespaceRemoves(sqrt: real -> real, st: StoreState, ns: string, q: Embedding, k: nat)
    ensures var st' := DeleteNamespaceOp(st, ns);
      ns !in st'.vectors && ns !in st'.namespaces
      && CountOp(st', ns) == 0
      && SearchOp(sqrt, st', ns, q, k) == Err(VectorStoreError("Namespace not found: " + ns))
      && (forall n :: n != ns ==> VectorsIn(st', n) == VectorsIn(st, n))
      && (forall n :: n != ns ==> (n in st'.namespaces <==> n in st.namespaces))
      && st'.namespaces == Filter(st.namespaces, OtherName(ns))
  {
    FilterMembers(st.namespaces, OtherName(ns), ns);
    forall n | n != ns
      ensures n in DeleteNamespaceOp(st, ns).namespaces <==> n in st.namespaces
    {
      FilterMembers(st.namespaces, OtherName(ns), n);
    }
  }

  lemma DeleteNamespaceKeepsInv(st: StoreState, ns: string)
    requires Inv(st)
    ensures Inv(DeleteNamespaceOp(st, ns))
  {
    var st' := DeleteNamespaceOp(st, ns);
    FilterNoDup(st.namespaces, OtherName(ns));
    forall n
      ensures n in st'.namespaces <==> n in st'.vectors.Keys
    {
      FilterMembers(st.namespaces, OtherName(ns), n);
    }
  }

  // ---------------------------------------------------------------------
  // Search

  lemma ScoreAllTagged(sqrt: real -> real, q: Embedding, vs: seq<StoredVector>)
    ensures TagIncreasing(ScoreAll(sqrt, q, vs), Pos)
  {
  }

  /** Every ranked entry is a stored vector with its position and its similarity. */
  lemma RankedEntries(sqrt: real -> real, q: Embedding, vs: seq<StoredVector>)
    ensures var r := Ranked(sqrt, q, vs);
      |r| == |vs|
      && forall i :: 0 <= i < |r| ==>
           (r[i].pos < |vs| && r[i].sv == vs[r[i].pos] && r[i].score == Cosine(sqrt, q, vs[r[i].pos].embedding))
  {
    var s := ScoreAll(sqrt, q, vs);
    var r := Ranked(sqrt, q, vs);
    SortByPermutes(s, NegScore);
    forall i | 0 <= i < |r|
      ensures r[i].pos < |vs| && r[i].sv == vs[r[i].pos] && r[i].score == Cosine(sqrt, q, vs[r[i].pos].embedding)
    {
      assert r[i] in multiset(s);
    }
  }

  /** Every stored vector appears in the ranking. */
  lemma RankedCovers(sqrt: real -> real, q: Embedding, vs: seq<StoredVector>, p: nat)
    requires p < |vs|
    ensures exists i :: 0 <= i < |Ranked(sqrt, q, vs)| && Ranked(sqrt, q, vs)[i].pos == p
  {
    var s := ScoreAll(sqrt, q, vs);
    var r := Ranked(sqrt, q, vs);
    SortByPermutes(s, NegScore);
    assert s[p] in multiset(r);
    var i :| 0 <= i < |r| && r[i] == s[p];
    assert r[i].pos == p;
  }

  /**
   * The ranking is ordered by descending similarity, and vectors of equal
   * similarity keep their storage order.
   */
  lemma RankedOrder(sqrt: real -> real, q: Embedding, vs: seq<StoredVector>)
    ensures var r := Ranked(sqrt, q, vs);
      forall i, j :: 0 <= i < j < |r| ==>
        r[i].score > r[j].score || (r[i].score == r[j].score && r[i].pos < r[j].pos)
  {
    var s := ScoreAll(sqrt, q, vs);
    var r := Ranked(sqrt, q, vs);
    ScoreAllTagged(sqrt, q, vs);
    SortByStable(s, NegScore, Pos);
    forall i, j | 0 <= i < j < |r|
      ensures r[i].score > r[j].score || (r[i].score == r[j].score && r[i].pos < r[j].pos)
    {
      assert NegScore(r[i]) < NegScore(r[j]) || (NegScore(r[i]) == NegScore(r[j]) && Pos(r[i]) < Pos(r[j]));
    }
  }

  /** Searching a namespace that does not exist fails with the source's message. */
  lemma SearchMissingNamespace(sqrt: real -> real, st: StoreState, ns: string, q: Embedding, k: nat)
    requires ns !in st.vectors
    ensures SearchOp(sqrt, st, ns, q, k) == Err(VectorStoreError("Namespace not found: " + ns))
  {
  }

  /**
   * Searching an existing namespace succeeds with min(k, n) results, which
   * are the first entries of the ranking: ordered by descending score, each
   * copying a stored vector's id, text and metadata (with `custom` = None)
   * and carrying its cosine similarity to the query, no stored vector twice,
   * and no vector left out scoring above any returned one.
   */
  lemma SearchSpec(sqrt: real -> real, st: StoreState, ns: string, q: Embedding, k: nat)
    requires ns in st.vectors
    ensures var vs := st.vectors[ns];
      var res := SearchOp(sqrt, st, ns, q, k);
      var r := Ranked(sqrt, q, vs);
      |r| == |vs| && res.Ok?
      && |res.value| == Min(k, |vs|)
      && (forall i :: 0 <= i < |res.value| ==> res.value[i] == ToResult(r[i]))
      && (forall i, j :: 0 <= i < j < |res.value| ==> res.value[i].score >= res.value[j].score)
      && (forall i :: 0 <= i < |res.value| ==>
            (r[i].pos < |vs| &&
             var sv := vs[r[i].pos];
             res.value[i] == SearchResult(sv.id, sv.text, Cosine(sqrt, q, sv.embedding),
               VectorMetadata(sv.entityType, sv.entityId, sv.chunkIndex, sv.totalChunks, sv.timestamp, None))))
      && (forall i, j :: 0 <= i < j < |res.value| ==> r[i].pos != r[j].pos)
      && (forall i, p :: 0 <= i < |res.value| && 0 <= p < |vs| && (forall j :: 0 <= j < |res.value| ==> r[j].pos != p)
            ==> Cosine(sqrt, q, vs[p].embedding) <= res.value[i].score)
  {
    var vs := st.vectors[ns];
    SearchTakes(sqrt, st, ns, q, k);
    RankedEntries(sqrt, q, vs);
    var m := Min(k, |vs|);
    SearchCopies(sqrt, q, vs, m);
    SearchOrdered(sqrt, q, vs, m);
    SearchTopK(sqrt, q, vs, m);
  }

  /** An existing namespace yields the first results of the ranking. */
  lemma SearchTakes(sqrt: real -> real, st: StoreState, ns: string, q: Embedding, k: nat)
    requires ns in st.vectors
    ensures SearchOp(sqrt, st, ns, q, k) == Ok(TakeResults(Ranked(sqrt, q, st.vectors[ns]), k))
  {
    if st.vectors[ns] == [] {
      assert TakeResults(Ranked(sqrt, q, []), k) == [];
    }
  }

  lemma SearchCopies(sqrt: real -> real, q: Embedding, vs: seq<StoredVector>, m: nat)
    requires m <= |vs|
    ensures |Ranked(sqrt, q, vs)| == |vs|
    ensures var r := Ranked(sqrt, q, vs);
      forall i :: 0 <= i < m ==>
        (r[i].pos < |vs| &&
         var sv := vs[r[i].pos];
         ToResult(r[i]) == SearchResult(sv.id, sv.text, Cosine(sqrt, q, sv.embedding),
           VectorMetadata(sv.entityType, sv.entityId, sv.chunkIndex, sv.totalChunks, sv.timestamp, None)))
  {
    RankedEntries(sqrt, q, vs);
  }

  lemma SearchOrdered(sqrt: real -> real, q: Embedding, vs: seq<StoredVector>, m: nat)
    requires m <= |vs|
    ensures |Ranked(sqrt, q, vs)| == |vs|
    ensures var r := Ranked(sqrt, q, vs);
      (forall i, j :: 0 <= i < j < m ==> ToResult(r[i]).score >= ToResult(r[j]).score)
      && (forall i, j :: 0 <= i < j < m ==> r[i].pos != r[j].pos)
  {
    var r := Ranked(sqrt, q, vs);
    RankedEntries(sqrt, q, vs);
    RankedOrder(sqrt, q, vs);
    forall i, j | 0 <= i < j < m ensures r[i].pos != r[j].pos {
      assert r[i].score == Cosine(sqrt, q, vs[r[i].pos].embedding);
      assert r[j].score == Cosine(sqrt, q, vs[r[j].pos].embedding);
    }
  }

  lemma SearchTopK(sqrt: real -> real, q: Embedding, vs: seq<StoredVector>, m: nat)
    requires m <= |vs|
    ensures |Ranked(sqrt, q, vs)| == |vs|
    ensures var r := Ranked(sqrt, q, vs);
      forall i, p :: 0 <= i < m && 0 <= p < |vs| && (forall j :: 0 <= j < m ==> r[j].pos != p)
        ==> Cosine(sqrt, q, vs[p].embedding) <= ToResult(r[i]).score
  {
    var r := Ranked(sqrt, q, vs);
    RankedEntries(sqrt, q, vs);
    RankedOrder(sqrt, q, vs);
    forall i, p | 0 <= i < m && 0 <= p < |vs| && (forall j :: 0 <= j < m ==> r[j].pos != p)
      ensures Cosine(sqrt, q, vs[p].embedding) <= ToResult(r[i]).score
    {
      RankedCovers(sqrt, q, vs, p);
      var t :| 0 <= t < |r| && r[t].pos == p;
      assert t >= m;
    }
  }

  /**
   * Search with equal scores: among results of equal similarity, the one
   * stored earlier comes first.
   */
  lemma SearchStable(sqrt: real -> real, st: StoreState, ns: string, q: Embedding, k: nat)
    requires ns in st.vectors
    ensures var r := Ranked(sqrt, q, st.vectors[ns]);
      var res := SearchOp(sqrt, st, ns, q, k);
      res.Ok? && forall i, j :: 0 <= i < j < |res.value| && res.value[i].score == res.value[j].score ==> r[i].pos < r[j].pos
  {
    SearchSpec(sqrt, st, ns, q, k);
    RankedOrder(sqrt, q, st.vectors[ns]);
  }

  /** The store's own test: one vector stored, then found with score 1. */
  lemma StoreThenSearchExample(sqrt: real -> real)
    requires IsSqrt(sqrt)
    ensures var meta := VectorMetadata("Test", "1", 0, 1, 0, None);
      var v := Vector("test1", [1.0, 0.0, 0.0], "Test text", meta);
      var st := StoreOp(Empty, "test_namespace", v);
      CountOp(st, "test_namespace") == 1
      && SearchOp(sqrt, st, "test_namespace", [1.0, 0.0, 0.0], 5)
         == Ok([SearchResult("test1", "Test text", 1.0, meta)])
  {
    var meta := VectorMetadata("Test", "1", 0, 1, 0, None);
    var v := Vector("test1", [1.0, 0.0, 0.0], "Test text", meta);
    var st := StoreOp(Empty, "test_namespace", v);
    assert st.vectors["test_namespace"] == [ToStored(v)];
    CosineExamples(sqrt);
    var s := ScoreAll(sqrt, [1.0, 0.0, 0.0], [ToStored(v)]);
    assert s == [Scored(1.0, 0, ToStored(v))];
    assert SortBy(s, NegScore) == s;
    assert TakeResults(s, 5) == [ToResult(s[0])];
  }
}
