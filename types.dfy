/**
 * Record shapes and the error type of the library (contrag-core types.rs and
 * error.rs). These carry no behaviour; every other module imports them.
 *
 * Modelling choices that hold throughout the project:
 *  - a Rust `String` is a `string` with one byte per character;
 *  - an `f32` is a `real` (no rounding, no NaN);
 *  - `usize` and `u64` are `nat` (no wrap-around).
 */
module Types {

  datatype Option<+T> = None | Some(value: T)

  /** The library's error enum; payload strings are the messages. */
  datatype ContragError =
    | ConfigError(msg: string)
    | DataSourceError(msg: string)
    | EmbedderError(msg: string)
    | VectorStoreError(msg: string)
    | EntityNotFound(msg: string)
    | DimensionMismatch(expected: nat, actual: nat)
    | HttpOutcallError(msg: string)
    | SerializationError(msg: string)
    | CanisterCallError(msg: string)
    | InvalidConfig(msg: string)
    | StorageError(msg: string)
    | ContextBuildError(msg: string)

  /** `crate::error::Result<T>`. */
  datatype Result<+T> = Ok(value: T) | Err(error: ContragError)

  /** An embedding: `Vec<f32>` with each component a real number. */
  type Embedding = seq<real>

  datatype VectorMetadata = VectorMetadata(
    entityType: string,
    entityId: string,
    chunkIndex: nat,
    totalChunks: nat,
    timestamp: nat,
    custom: Option<string>)

  datatype Vector = Vector(
    id: string,
    embedding: Embedding,
    text: string,
    metadata: VectorMetadata)

  datatype SearchResult = SearchResult(
    vectorId: string,
    text: string,
    score: real,
    metadata: VectorMetadata)

  /** A chunk of a longer text: `text` is meant to be the slice [startIdx, endIdx). */
  datatype TextChunk = TextChunk(
    text: string,
    startIdx: nat,
    endIdx: nat,
    chunkIndex: nat)

  datatype RelationshipType = OneToOne | OneToMany | ManyToOne | ManyToMany

  datatype EntityRelationship = EntityRelationship(
    fieldName: string,
    targetEntityType: string,
    targetId: string,
    relationshipType: RelationshipType)

  /**
   * What a `RagEntity` exposes: its type name, its id, its flat context map
   * and its relationships (the shape of `EntityNode`).
   */
  datatype EntityNode = EntityNode(
    entityType: string,
    entityId: string,
    contextMap: seq<(string, string)>,
    relationships: seq<EntityRelationship>)
}
