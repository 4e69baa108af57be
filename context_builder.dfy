/**
 * The context formatters of contrag-core (context_builder.rs): an entity as
 * a header and one line per context-map entry, an entity graph as the root
 * context followed by the related contexts, several entities separated by a
 * banner, and the chunking of these contexts.
 *
 * `ContextBuilder` only holds its `ChunkingConfig`; here that configuration
 * is a parameter of each operation.
 */
module ContextBuilder {
  import opened Types
  import opened Strings
  import opened Config
  import Entity
  import opened Chunker

  /** The header of an entity context. */
  function Header(e: EntityNode): seq<string> {
    ["Entity: " + e.entityType, "ID: " + e.entityId, "---"]
  }

  /** The line of one context-map entry. */
  function EntryLine(includeFieldNames: bool, entry: (string, string)): string {
    if includeFieldNames then entry.0 + ": " + entry.1 else entry.1
  }

  /** The lines `build_entity_context` joins. */
  function ContextLines(includeFieldNames: bool, e: EntityNode): seq<string> {
    Header(e) + seq(|e.contextMap|, i requires 0 <= i < |e.contextMap| => EntryLine(includeFieldNames, e.contextMap[i]))
  }

  function EntityContext(includeFieldNames: bool, e: EntityNode): string {
    Join(ContextLines(includeFieldNames, e), "\n")
  }

  method BuildEntityContext(config: ChunkingConfig, e: EntityNode) returns (context: string)
    ensures context == EntityContext(config.includeFieldNames, e)
  {
    var parts := Header(e);
    for i := 0 to |e.contextMap|
      invariant parts == Header(e)
        + seq(i, k requires 0 <= k < i => EntryLine(config.includeFieldNames, e.contextMap[k]))
    {
      var (key, value) := e.contextMap[i];
      if config.includeFieldNames {
        parts := parts + [key + ": " + value];
      } else {
        parts := parts + [value];
      }
    }
    assert parts == ContextLines(config.includeFieldNames, e);
    context := Join(parts, "\n");
  }

  /** With field names the entity context is exactly the entity's own `to_text`. */
  lemma EntityContextIsToText(e: EntityNode)
    ensures EntityContext(true, e) == Entity.EntityText(e.entityType, e.entityId, e.contextMap)
  {
    assert ContextLines(true, e) == Entity.TextLines(e.entityType, e.entityId, e.contextMap);
  }

  /** No part of the entity contains a newline. */
  predicate Newlineless(e: EntityNode) {
    Entity.NoNewline(e.entityType) && Entity.NoNewline(e.entityId)
    && forall i :: 0 <= i < |e.contextMap| ==>
         Entity.NoNewline(e.contextMap[i].0) && Entity.NoNewline(e.contextMap[i].1)
  }

  /**
   * Splitting an entity context at its newlines gives back three header
   * lines and one line per entry: `key: value`, or the bare value without
   * field names.
   */
  lemma EntityContextLines(includeFieldNames: bool, e: EntityNode)
    requires Newlineless(e)
    ensures var lines := SplitOn(EntityContext(includeFieldNames, e), '\n');
      |lines| == 3 + |e.contextMap|
      && lines[0] == "Entity: " + e.entityType && lines[1] == "ID: " + e.entityId && lines[2] == "---"
      && forall i :: 0 <= i < |e.contextMap| ==>
           lines[3 + i] == if includeFieldNames then e.contextMap[i].0 + ": " + e.contextMap[i].1
                           else e.contextMap[i].1
  {
    var lines := ContextLines(includeFieldNames, e);
    forall k, i | 0 <= k < |lines| && 0 <= i < |lines[k]| ensures lines[k][i] != '\n' {
      if k >= 3 {
        var entry := e.contextMap[k - 3];
        if includeFieldNames {
          assert lines[k] == entry.0 + ": " + entry.1;
          if i >= |entry.0| + 2 {
            assert lines[k][i] == entry.1[i - |entry.0| - 2];
          }
        } else {
          assert lines[k] == entry.1;
        }
      } else if k == 0 {
        if i >= 8 { assert lines[k][i] == e.entityType[i - 8]; }
      } else if k == 1 {
        if i >= 4 { assert lines[k][i] == e.entityId[i - 4]; }
      }
    }
    SplitJoin(lines, '\n');
  }

  // ---------------------------------------------------------------------
  // build_graph_context

  /** Related context `i`, annotated with relationship `i` of the root when it has one. */
  function RelatedPart(relationships: seq<EntityRelationship>, related: seq<string>, i: nat): string
    requires i < |related|
  {
    if i < |relationships| then "\n=== Relationship: " + relationships[i].fieldName + " ===\n" + related[i] + "\n"
    else "\n" + related[i] + "\n"
  }

  /** The parts `build_graph_context` joins: the root context, then each related one. */
  function GraphParts(includeFieldNames: bool, root: EntityNode, related: seq<string>): seq<string> {
    [EntityContext(includeFieldNames, root)]
      + seq(|related|, i requires 0 <= i < |related| => RelatedPart(root.relationships, related, i))
  }

  function GraphContext(includeFieldNames: bool, root: EntityNode, related: seq<string>): string {
    Join(GraphParts(includeFieldNames, root, related), "\n")
  }

  method BuildGraphContext(config: ChunkingConfig, root: EntityNode, related: seq<string>) returns (context: string)
    ensures context == GraphContext(config.includeFieldNames, root, related)
  {
    var rootContext := BuildEntityContext(config, root);
    var contexts := [rootContext];
    var relationships := root.relationships;
    for idx := 0 to |related|
      invariant contexts == [rootContext]
        + seq(idx, i requires 0 <= i < idx => RelatedPart(relationships, related, i))
    {
      if idx < |relationships| {
        var annotated := "\n=== Relationship: " + relationships[idx].fieldName + " ===\n" + related[idx] + "\n";
        contexts := contexts + [annotated];
      } else {
        contexts := contexts + ["\n" + related[idx] + "\n"];
      }
    }
    context := Join(contexts, "\n");
  }

  /** Without related contexts the graph context is the root's own context. */
  lemma GraphContextAlone(includeFieldNames: bool, root: EntityNode)
    ensures GraphContext(includeFieldNames, root, []) == EntityContext(includeFieldNames, root)
  {
    assert GraphParts(includeFieldNames, root, []) == [EntityContext(includeFieldNames, root)];
  }

  /**
   * One more related context adds a newline and that context: wrapped in a
   * relationship banner naming the field when the root has a relationship at
   * that position, otherwise only between newlines.
   */
  lemma GraphContextSnoc(includeFieldNames: bool, root: EntityNode, related: seq<string>, c: string)
    ensures var n := |related|;
      GraphContext(includeFieldNames, root, related + [c])
      == GraphContext(includeFieldNames, root, related) + "\n"
         + (if n < |root.relationships|
            then "\n=== Relationship: " + root.relationships[n].fieldName + " ===\n" + c + "\n"
            else "\n" + c + "\n")
  {
    var a := GraphParts(includeFieldNames, root, related);
    var b := GraphParts(includeFieldNames, root, related + [c]);
    assert b == a + [RelatedPart(root.relationships, related + [c], |related|)];
    JoinAppend(a, [RelatedPart(root.relationships, related + [c], |related|)], "\n");
  }

  /** The root context comes first. */
  lemma {:induction false} GraphContextStartsWithRoot(includeFieldNames: bool, root: EntityNode, related: seq<string>)
    ensures EntityContext(includeFieldNames, root) <= GraphContext(includeFieldNames, root, related)
    decreases |related|
  {
    if related == [] {
      GraphContextAlone(includeFieldNames, root);
    } else {
      var init := related[..|related| - 1];
      assert related == init + [related[|related| - 1]];
      GraphContextStartsWithRoot(includeFieldNames, root, init);
      GraphContextSnoc(includeFieldNames, root, init, related[|related| - 1]);
    }
  }

  // ---------------------------------------------------------------------
  // build_multi_entity_context

  const NextEntity := "\n\n=== Next Entity ===\n\n"

  function MultiEntityContext(includeFieldNames: bool, es: seq<EntityNode>): string {
    Join(seq(|es|, i requires 0 <= i < |es| => EntityContext(includeFieldNames, es[i])), NextEntity)
  }

  /**
   * No entities give the empty text, one entity its own context, and each
   * further entity adds the banner and its context.
   */
  lemma MultiEntityContextSpec(includeFieldNames: bool, es: seq<EntityNode>, e: EntityNode)
    ensures MultiEntityContext(includeFieldNames, []) == ""
    ensures MultiEntityContext(includeFieldNames, [e]) == EntityContext(includeFieldNames, e)
    ensures es != [] ==>
      MultiEntityContext(includeFieldNames, es + [e])
      == MultiEntityContext(includeFieldNames, es) + NextEntity + EntityContext(includeFieldNames, e)
  {
    if es != [] {
      var a := seq(|es|, i requires 0 <= i < |es| => EntityContext(includeFieldNames, es[i]));
      var b := seq(|es + [e]|, i requires 0 <= i < |es + [e]| => EntityContext(includeFieldNames, (es + [e])[i]));
      assert b == a + [EntityContext(includeFieldNames, e)];
      JoinAppend(a, [EntityContext(includeFieldNames, e)], NextEntity);
    }
  }

  // ---------------------------------------------------------------------
  // build_and_chunk, build_and_chunk_graph

  /** `build_and_chunk`: the chunks of the entity context, slices of it that reach its end. */
  method BuildAndChunk(config: ChunkingConfig, e: EntityNode) returns (chunks: seq<TextChunk>)
    requires Progresses(EntityContext(config.includeFieldNames, e), config.chunkSize, config.overlap, 0)
    ensures var context := EntityContext(config.includeFieldNames, e);
      chunks == ChunkTextSpec(context, config)
      && chunks != [] && chunks[|chunks| - 1].endIdx == |context|
      && forall k :: 0 <= k < |chunks| ==>
           (chunks[k].startIdx <= chunks[k].endIdx <= |context|
            && chunks[k].text == context[chunks[k].startIdx..chunks[k].endIdx])
  {
    var context := BuildEntityContext(config, e);
    chunks := ChunkText(context, config);
    ChunkTextSpecProperties(context, config);
  }

  /** `build_and_chunk_graph`: the chunks of the graph context, slices of it that reach its end. */
  method BuildAndChunkGraph(config: ChunkingConfig, root: EntityNode, related: seq<string>)
    returns (chunks: seq<TextChunk>)
    requires Progresses(GraphContext(config.includeFieldNames, root, related), config.chunkSize, config.overlap, 0)
    ensures var context := GraphContext(config.includeFieldNames, root, related);
      chunks == ChunkTextSpec(context, config)
      && chunks != [] && chunks[|chunks| - 1].endIdx == |context|
      && forall k :: 0 <= k < |chunks| ==>
           (chunks[k].startIdx <= chunks[k].endIdx <= |context|
            && chunks[k].text == context[chunks[k].startIdx..chunks[k].endIdx])
  {
    var context := BuildGraphContext(config, root, related);
    chunks := ChunkText(context, config);
    ChunkTextSpecProperties(context, config);
  }
}
