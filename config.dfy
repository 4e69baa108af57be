/**
 * Configuration of contrag-core (config.rs): the configuration records,
 * their defaults, and `validate_config`, an ordered chain of checks whose
 * first failure is reported.
 *
 * Parsing the JSON text is serde's business; it is the parameter `parse`,
 * which yields either a configuration or serde's error message.
 */
module Config {
  import opened Types

  datatype RelationshipConfig = RelationshipConfig(fieldName: string, targetEntity: string, relationshipType: string)

  datatype EntityConfig = EntityConfig(
    name: string,
    canisterId: string,
    fetchMethod: string,
    fetchManyMethod: Option<string>,
    relationships: seq<RelationshipConfig>,
    autoInclude: bool)

  datatype EmbedderConfigDef = EmbedderConfigDef(
    provider: string,
    model: string,
    dimensions: nat,
    apiEndpoint: Option<string>)

  datatype ChunkingConfig = ChunkingConfig(chunkSize: nat, overlap: nat, includeFieldNames: bool)

  datatype VectorStoreConfig = VectorStoreConfig(storageType: string, maxHotVectors: Option<nat>, enableCache: bool)

  datatype ContragConfig = ContragConfig(
    entities: seq<EntityConfig>,
    embedder: EmbedderConfigDef,
    chunking: ChunkingConfig,
    vectorStore: VectorStoreConfig,
    systemPrompt: Option<string>)

  datatype EnvVars = EnvVars(openaiApiKey: Option<string>, geminiApiKey: Option<string>)

  /** What serde makes of a JSON text. */
  datatype Parsed = Parsed(config: ContragConfig) | ParseFailure(message: string)

  /** `ChunkingConfig::default()`. */
  const DefaultChunking := ChunkingConfig(1000, 100, true)

  /** `VectorStoreConfig::default()`. */
  const DefaultVectorStore := VectorStoreConfig("stable_memory", Some(10000), true)

  /** `create_default_config()`: no entities, OpenAI's small embedding model. */
  function CreateDefaultConfig(): ContragConfig {
    ContragConfig([], EmbedderConfigDef("openai", "text-embedding-3-small", 1536, None),
      DefaultChunking, DefaultVectorStore, None)
  }

  const NoEntities := InvalidConfig("At least one entity must be configured")
  const ZeroDimensions := InvalidConfig("Embedder dimensions must be greater than 0")
  const ZeroChunkSize := InvalidConfig("Chunk size must be greater than 0")
  const OverlapTooLarge := InvalidConfig("Overlap must be less than chunk size")
  const EmptyEntityName := InvalidConfig("Entity name cannot be empty")

  function EmptyCanisterId(name: string): ContragError {
    InvalidConfig("Canister ID for entity '" + name + "' cannot be empty")
  }

  /** The per-entity checks, in list order; for one entity the name comes first. */
  function CheckEntities(es: seq<EntityConfig>): Result<()> {
    if es == [] then Ok(())
    else if es[0].name == [] then Err(EmptyEntityName)
    else if es[0].canisterId == [] then Err(EmptyCanisterId(es[0].name))
    else CheckEntities(es[1..])
  }

  /** `validate_config`. */
  function ValidateConfig(config: ContragConfig): Result<()> {
    if config.entities == [] then Err(NoEntities)
    else if config.embedder.dimensions == 0 then Err(ZeroDimensions)
    else if config.chunking.chunkSize == 0 then Err(ZeroChunkSize)
    else if config.chunking.overlap >= config.chunking.chunkSize then Err(OverlapTooLarge)
    else CheckEntities(config.entities)
  }

  /** `load_config_from_json`: serde's error becomes a `ConfigError`. */
  function LoadConfigFromJson(parse: string -> Parsed, json: string): Result<ContragConfig> {
    match parse(json)
    case Parsed(config) => Ok(config)
    case ParseFailure(message) => Err(ConfigError("Failed to parse config: " + message))
  }

  /** `load_config`: parse, then validate; the environment variables are not used. */
  function LoadConfig(parse: string -> Parsed, json: string, env: EnvVars): Result<ContragConfig> {
    match LoadConfigFromJson(parse, json)
    case Err(e) => Err(e)
    case Ok(config) =>
      match ValidateConfig(config)
      case Err(e) => Err(e)
      case Ok(_) => Ok(config)
  }

  /** Every entity has a name and a canister id. */
  predicate EntitiesComplete(es: seq<EntityConfig>) {
    forall i :: 0 <= i < |es| ==> es[i].name != [] && es[i].canisterId != []
  }

  /** The entity checks pass exactly when every entity is complete. */
  lemma {:induction false} CheckEntitiesOk(es: seq<EntityConfig>)
    ensures CheckEntities(es).Ok? <==> EntitiesComplete(es)
    decreases |es|
  {
    if es != [] {
      CheckEntitiesOk(es[1..]);
      assert EntitiesComplete(es) <==> es[0].name != [] && es[0].canisterId != [] && EntitiesComplete(es[1..]) by {
        if es[0].name != [] && es[0].canisterId != [] && EntitiesComplete(es[1..]) {
          forall i | 0 <= i < |es| ensures es[i].name != [] && es[i].canisterId != [] {
            if i > 0 { assert es[i] == es[1..][i - 1]; }
          }
        }
      }
    }
  }

  /**
   * The entity error reports the first incomplete entity: the empty-name
   * error when its name is empty, otherwise the canister-id error naming it.
   */
  lemma {:induction false} CheckEntitiesFirstFailure(es: seq<EntityConfig>, i: nat)
    requires i < |es| && !(es[i].name != [] && es[i].canisterId != [])
    requires EntitiesComplete(es[..i])
    ensures CheckEntities(es) == if es[i].name == [] then Err(EmptyEntityName) else Err(EmptyCanisterId(es[i].name))
    decreases i
  {
    if i > 0 {
      assert es[..i][0] == es[0];
      assert es[1..][..i - 1] == es[..i][1..];
      CheckEntitiesFirstFailure(es[1..], i - 1);
    }
  }

  /** Validation succeeds exactly when all five conditions hold. */
  lemma ValidateConfigOk(config: ContragConfig)
    ensures ValidateConfig(config).Ok? <==>
      config.entities != []
      && config.embedder.dimensions > 0
      && config.chunking.chunkSize > 0
      && config.chunking.overlap < config.chunking.chunkSize
      && EntitiesComplete(config.entities)
  {
    CheckEntitiesOk(config.entities);
  }

  /**
   * The checks run in a fixed order and the first failing one decides the
   * error.
   */
  lemma ValidateConfigOrder(config: ContragConfig)
    ensures config.entities == [] ==> ValidateConfig(config) == Err(NoEntities)
    ensures config.entities != [] && config.embedder.dimensions == 0 ==> ValidateConfig(config) == Err(ZeroDimensions)
    ensures config.entities != [] && config.embedder.dimensions > 0 && config.chunking.chunkSize == 0
      ==> ValidateConfig(config) == Err(ZeroChunkSize)
    ensures config.entities != [] && config.embedder.dimensions > 0 && config.chunking.chunkSize > 0
      && config.chunking.overlap >= config.chunking.chunkSize
      ==> ValidateConfig(config) == Err(OverlapTooLarge)
    ensures config.entities != [] && config.embedder.dimensions > 0 && config.chunking.chunkSize > 0
      && config.chunking.overlap < config.chunking.chunkSize
      ==> ValidateConfig(config) == CheckEntities(config.entities)
  {
  }

  /** A validated configuration gives the chunker an overlap below the chunk size. */
  lemma ValidatedChunking(config: ContragConfig)
    requires ValidateConfig(config).Ok?
    ensures 0 < config.chunking.chunkSize && config.chunking.overlap < config.chunking.chunkSize
  {
  }

  /** The default configuration is rejected: it configures no entity. */
  lemma DefaultConfigRejected()
    ensures ValidateConfig(CreateDefaultConfig()) == Err(NoEntities)
  {
  }

  /** The default configuration with one complete entity added passes validation. */
  lemma DefaultConfigWithEntityAccepted(e: EntityConfig)
    requires e.name != [] && e.canisterId != []
    ensures ValidateConfig(CreateDefaultConfig().(entities := [e])).Ok?
  {
    var config := CreateDefaultConfig().(entities := [e]);
    assert config.chunking == ChunkingConfig(1000, 100, true);
    assert [e][1..] == [];
    assert CheckEntities(config.entities) == Ok(());
  }

  /** Loading succeeds exactly when parsing and validation both succeed. */
  lemma LoadConfigOk(parse: string -> Parsed, json: string, env: EnvVars)
    ensures LoadConfig(parse, json, env).Ok? <==> parse(json).Parsed? && ValidateConfig(parse(json).config).Ok?
    ensures LoadConfig(parse, json, env).Ok? ==> LoadConfig(parse, json, env).value == parse(json).config
    ensures parse(json).ParseFailure? ==>
      LoadConfig(parse, json, env) == Err(ConfigError("Failed to parse config: " + parse(json).message))
    ensures parse(json).Parsed? && ValidateConfig(parse(json).config).Err? ==>
      LoadConfig(parse, json, env) == Err(ValidateConfig(parse(json).config).error)
  {
  }

  /** The environment variables do not influence the result. */
  lemma LoadConfigIgnoresEnv(parse: string -> Parsed, json: string, env1: EnvVars, env2: EnvVars)
    ensures LoadConfig(parse, json, env1) == LoadConfig(parse, json, env2)
  {
  }
}
