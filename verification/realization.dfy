/** The game-thread phase: turn the textures staged by phase one into engine
    texture resources. Shared textures are realized once each, tracked with a
    linear list of those already realized; the overall result is the AND of
    every realization, and a failure does not stop the remaining ones. */
module Realization {
  import opened Optional
  import opened Sequences
  import opened FeatureIdTypes
  import opened MetadataTypes

  /** Realize every texture of `textures` not in `seen` yet, in order, and
      record it. The result is `seen` extended by the newly met textures in
      order of first appearance, and `success` holds exactly when each of those
      realizations succeeded. */
  method RealizeUnseen<T(==)>(seen: seq<T>, textures: seq<T>, realize: T -> bool)
    returns (success: bool, seenAfter: seq<T>)
    ensures seenAfter == AppendUnseen(seen, textures)
    ensures |seen| <= |seenAfter| && seenAfter[..|seen|] == seen
    ensures success <==> forall k :: |seen| <= k < |seenAfter| ==> realize(seenAfter[k])
  {
    success := true;
    seenAfter := seen;
    var i := 0;
    while i < |textures|
      invariant 0 <= i <= |textures|
      invariant seenAfter == AppendUnseen(seen, textures[..i])
      invariant |seen| <= |seenAfter| && seenAfter[..|seen|] == seen
      invariant success <==> forall k :: |seen| <= k < |seenAfter| ==> realize(seenAfter[k])
    {
      assert textures[..i + 1][..i] == textures[..i];
      var texture := textures[i];
      if texture !in seenAfter {
        var ok := realize(texture);
        success := success && ok;
        ghost var before := seenAfter;
        seenAfter := seenAfter + [texture];
        assert forall k :: 0 <= k < |before| ==> seenAfter[k] == before[k];
        assert seenAfter[|before|] == texture;
        assert ok == realize(seenAfter[|before|]);
      }
      i := i + 1;
    }
    assert textures[..|textures|] == textures;
  }

  /** The shared texture of an encoded feature ID set, if it has one. */
  function PointerOf(e: EncodedFeatureIdSet): Option<TexturePointer> {
    if e.texture.Some? then Some(e.texture.value.pointer) else None
  }

  /** The shared textures of encoded feature ID sets, in order, repeats kept. */
  function TexturesOf(encoded: seq<EncodedFeatureIdSet>): seq<TexturePointer> {
    FilterMap(encoded, PointerOf)
  }

  lemma TexturesOfElements(encoded: seq<EncodedFeatureIdSet>)
    ensures forall t :: t in TexturesOf(encoded) <==>
              exists k :: 0 <= k < |encoded| && encoded[k].texture.Some? && encoded[k].texture.value.pointer == t
  {
    FilterMapSelects(encoded, PointerOf);
    var out := TexturesOf(encoded);
    var sel := SelectedIndices(encoded, PointerOf);
    forall t | t in out
      ensures exists k :: 0 <= k < |encoded| && encoded[k].texture.Some? && encoded[k].texture.value.pointer == t
    {
      var i :| 0 <= i < |out| && out[i] == t;
      assert PointerOf(encoded[sel[i]]) == Some(t);
    }
    forall k | 0 <= k < |encoded| && encoded[k].texture.Some?
      ensures encoded[k].texture.value.pointer in out
    {
      assert k in sel;
      var i :| 0 <= i < |sel| && sel[i] == k;
      assert PointerOf(encoded[k]) == Some(out[i]);
    }
  }

  /** Phase two for a primitive's features: every distinct shared texture of
      the encoded sets is realized exactly once, in order of first use, and the
      result is `true` exactly when all of those realizations succeeded. */
  method EncodePrimitiveFeaturesGameThreadPart(encoded: seq<EncodedFeatureIdSet>, realize: TexturePointer -> bool)
    returns (success: bool, realized: seq<TexturePointer>)
    ensures realized == AppendUnseen([], TexturesOf(encoded))
    ensures NoDuplicates(realized)
    ensures forall t :: t in realized <==>
              exists k :: 0 <= k < |encoded| && encoded[k].texture.Some? && encoded[k].texture.value.pointer == t
    ensures success <==> forall k :: 0 <= k < |realized| ==> realize(realized[k])
  {
    success, realized := RealizeUnseen([], TexturesOf(encoded), realize);
    AppendUnseenSpec([], TexturesOf(encoded));
    TexturesOfElements(encoded);
  }

  /** The textures a table owns, in property order. */
  function OwnedTextures(properties: seq<EncodedPropertyTableProperty>): seq<TableTexture> {
    FilterMap(properties, (e: EncodedPropertyTableProperty) => e.texture)
  }

  /** Phase two for a property table: every property that has a texture has it
      realized, in order (each is owned by its property, so nothing is shared);
      the result is `true` exactly when every realization succeeded. */
  method EncodePropertyTableGameThreadPart(table: EncodedPropertyTable, realize: TableTexture -> bool)
    returns (success: bool, realized: seq<TableTexture>)
    ensures realized == OwnedTextures(table.properties)
    ensures success <==> forall k :: 0 <= k < |realized| ==> realize(realized[k])
  {
    success := true;
    realized := [];
    var properties := table.properties;
    var i := 0;
    while i < |properties|
      invariant 0 <= i <= |properties|
      invariant realized == OwnedTextures(properties[..i])
      invariant success <==> forall k :: 0 <= k < |realized| ==> realize(realized[k])
    {
      assert properties[..i + 1][..i] == properties[..i];
      if properties[i].texture.Some? {
        var ok := realize(properties[i].texture.value);
        success := success && ok;
        ghost var before := realized;
        realized := realized + [properties[i].texture.value];
        assert forall k :: 0 <= k < |before| ==> realized[k] == before[k];
        assert ok == realize(realized[|before|]);
      }
      i := i + 1;
    }
    assert properties[..|properties|] == properties;
  }

  /** The shared textures of a list of encoded property textures, in order. */
  function PropertyTexturePointers(textures: seq<EncodedPropertyTexture>): seq<TexturePointer>
    decreases |textures|
  {
    if |textures| == 0 then []
    else PropertyTexturePointers(textures[..|textures| - 1]) + textures[|textures| - 1].properties
  }

  /** The owned textures of a list of encoded tables, table after table. */
  function TableTextures(tables: seq<EncodedPropertyTable>): seq<TableTexture>
    decreases |tables|
  {
    if |tables| == 0 then []
    else TableTextures(tables[..|tables| - 1]) + OwnedTextures(tables[|tables| - 1].properties)
  }

  /** Realize the shared textures of every property texture, once each, with
      one seen list for all of them. */
  method RealizePropertyTextures(textures: seq<EncodedPropertyTexture>, realize: TexturePointer -> bool)
    returns (success: bool, realized: seq<TexturePointer>)
    ensures realized == AppendUnseen([], PropertyTexturePointers(textures))
    ensures NoDuplicates(realized)
    ensures success <==> forall k :: 0 <= k < |realized| ==> realize(realized[k])
  {
    success := true;
    realized := [];
    var i := 0;
    while i < |textures|
      invariant 0 <= i <= |textures|
      invariant realized == AppendUnseen([], PropertyTexturePointers(textures[..i]))
      invariant success <==> forall k :: 0 <= k < |realized| ==> realize(realized[k])
    {
      assert textures[..i + 1][..i] == textures[..i];
      assert PropertyTexturePointers(textures[..i + 1])
          == PropertyTexturePointers(textures[..i]) + textures[i].properties;
      var before := realized;
      var ok;
      ok, realized := RealizeUnseen(realized, textures[i].properties, realize);
      AppendUnseenConcat([], PropertyTexturePointers(textures[..i]), textures[i].properties);
      AllRealizedSplit(before, realized, realize);
      success := success && ok;
      i := i + 1;
    }
    assert textures[..|textures|] == textures;
    AppendUnseenSpec([], PropertyTexturePointers(textures));
  }

  /** Every texture of an extension of `before` is realized exactly when every
      texture of `before` and every added one is. */
  lemma AllRealizedSplit<T>(before: seq<T>, after: seq<T>, realize: T -> bool)
    requires |before| <= |after| && after[..|before|] == before
    ensures (forall k :: 0 <= k < |after| ==> realize(after[k])) <==>
              && (forall k :: 0 <= k < |before| ==> realize(before[k]))
              && (forall k :: |before| <= k < |after| ==> realize(after[k]))
  {
    assert forall k :: 0 <= k < |before| ==> after[k] == before[k];
  }

  /** Realize every table's owned textures, table after table. */
  method RealizeTables(tables: seq<EncodedPropertyTable>, realize: TableTexture -> bool)
    returns (success: bool, realized: seq<TableTexture>)
    ensures realized == TableTextures(tables)
    ensures success <==> forall k :: 0 <= k < |realized| ==> realize(realized[k])
  {
    success := true;
    realized := [];
    var j := 0;
    while j < |tables|
      invariant 0 <= j <= |tables|
      invariant realized == TableTextures(tables[..j])
      invariant success <==> forall k :: 0 <= k < |realized| ==> realize(realized[k])
    {
      assert tables[..j + 1][..j] == tables[..j];
      var ok, owned := EncodePropertyTableGameThreadPart(tables[j], realize);
      var before := realized;
      realized := realized + owned;
      assert forall k :: |before| <= k < |realized| ==> realized[k] == owned[k - |before|];
      assert forall k :: 0 <= k < |before| ==> realized[k] == before[k];
      if forall k :: 0 <= k < |realized| ==> realize(realized[k]) {
        forall m | 0 <= m < |owned| ensures realize(owned[m]) {
          assert realized[|before| + m] == owned[m];
        }
      } else if ok && success {
        forall k | 0 <= k < |realized| ensures realize(realized[k]) {
          if k >= |before| {
            assert realize(owned[k - |before|]);
          }
        }
      }
      success := success && ok;
      j := j + 1;
    }
    assert tables[..|tables|] == tables;
  }

  /** Phase two for a model: the property textures' shared textures are
      realized once each across all property textures, then every table's
      owned textures; the result is `true` exactly when every one of those
      realizations succeeded. */
  method EncodeModelMetadataGameThreadPart(
    metadata: EncodedModelMetadata, realizeShared: TexturePointer -> bool, realizeOwned: TableTexture -> bool)
    returns (success: bool, realizedShared: seq<TexturePointer>, realizedOwned: seq<TableTexture>)
    ensures realizedShared == AppendUnseen([], PropertyTexturePointers(metadata.propertyTextures))
    ensures NoDuplicates(realizedShared)
    ensures realizedOwned == TableTextures(metadata.propertyTables)
    ensures success <==>
              && (forall k :: 0 <= k < |realizedShared| ==> realizeShared(realizedShared[k]))
              && (forall k :: 0 <= k < |realizedOwned| ==> realizeOwned(realizedOwned[k]))
  {
    var sharedOk, ownedOk;
    sharedOk, realizedShared := RealizePropertyTextures(metadata.propertyTextures, realizeShared);
    ownedOk, realizedOwned := RealizeTables(metadata.propertyTables, realizeOwned);
    success := sharedOk && ownedOk;
  }
}
