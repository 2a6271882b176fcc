/** Properties that tie the two phases together, and worked end-to-end cases:
    one shared texture behind two feature ID sets, an implicit set, a ten-row
    byte property, and names that match their descriptions only when case is
    ignored. */
module Scenarios {
  import opened Optional
  import opened Sequences
  import opened PixelFormats
  import opened TextureDimensions
  import opened FeatureIdTypes
  import opened MetadataTypes
  import opened Names
  import opened FeatureIdEncoder
  import opened PropertyTableEncoder
  import opened Realization
  import opened CaseFolding
  import opened ModelMetadataEncoder

  /** Across both phases of a primitive's features: every texture the encoded
      sets point at is a live shared texture and is realized exactly once; two
      encoded sets that read the same image point at that one texture. */
  lemma SharedImageRealizedOnce(
    descriptions: seq<FeatureIdSetDescription>, sets: seq<FeatureIdSet>, allocate: Allocator)
    ensures var e := EncodePrimitiveFeaturesAnyThreadPart(descriptions, sets, allocate);
            var realized := AppendUnseen([], TexturesOf(e));
            && (forall k :: 0 <= k < |e| && e[k].texture.Some? ==>
                  && e[k].texture.value.pointer.Shared?
                  && multiset(realized)[e[k].texture.value.pointer] == 1)
            && (forall k1, k2 ::
                  (0 <= k1 < |e| && 0 <= k2 < |e| && e[k1].texture.Some? && e[k2].texture.Some?
                   && SameImage(sets, e[k1], e[k2])) ==>
                  e[k1].texture.value.pointer == e[k2].texture.value.pointer)
  {
    var e := EncodePrimitiveFeaturesAnyThreadPart(descriptions, sets, allocate);
    var realized := AppendUnseen([], TexturesOf(e));
    AppendUnseenSpec([], TexturesOf(e));
    TexturesOfElements(e);
    forall k | 0 <= k < |e| && e[k].texture.Some?
      ensures e[k].texture.value.pointer.Shared?
      ensures multiset(realized)[e[k].texture.value.pointer] == 1
    {
      assert Reflects(e[k], descriptions, sets);
      assert e[k].texture.value.pointer in realized;
      OccursOnce(realized, e[k].texture.value.pointer);
    }
  }

  /** An unlabeled texture set reading `image`, valid on channel 0. */
  function TextureSetOf(image: Image, nullFeatureId: int): FeatureIdSet {
    FeatureIdSet(TextureSet(FeatureIdTexture(true, image, [0], 0)), "", nullFeatureId)
  }

  /** The live positions the encodings came from, in order. */
  function IndicesOf(e: seq<EncodedFeatureIdSet>): (r: seq<nat>)
    ensures |r| == |e|
    ensures forall k :: 0 <= k < |e| ==> r[k] == e[k].index
  {
    seq(|e|, k requires 0 <= k < |e| => e[k].index)
  }

  /** What phase one says about where its encodings came from. */
  lemma PassIndices(descriptions: seq<FeatureIdSetDescription>, sets: seq<FeatureIdSet>, allocate: Allocator)
    ensures var idx := IndicesOf(EncodePrimitiveFeaturesAnyThreadPart(descriptions, sets, allocate));
            && StrictlyIncreasing(idx)
            && (forall k :: 0 <= k < |idx| ==> idx[k] < |sets|)
            && (forall j :: 0 <= j < |sets| && IsSelected(descriptions, sets, j, allocate) ==> j in idx)
  {
    var e := EncodePrimitiveFeaturesAnyThreadPart(descriptions, sets, allocate);
    var idx := IndicesOf(e);
    forall k | 0 <= k < |idx| ensures idx[k] < |sets| {
      assert Reflects(e[k], descriptions, sets);
    }
    forall j | 0 <= j < |sets| && IsSelected(descriptions, sets, j, allocate) ensures j in idx {
      var k :| 0 <= k < |e| && e[k].index == j;
      assert idx[k] == j;
    }
  }

  /** When every live set is selected, phase one emits one encoding per live
      set, the k-th for the k-th set. */
  lemma AllSelectedAllEmitted(descriptions: seq<FeatureIdSetDescription>, sets: seq<FeatureIdSet>, allocate: Allocator)
    requires forall j :: 0 <= j < |sets| ==> IsSelected(descriptions, sets, j, allocate)
    ensures var e := EncodePrimitiveFeaturesAnyThreadPart(descriptions, sets, allocate);
            && |e| == |sets|
            && forall k :: 0 <= k < |e| ==> e[k].index == k
  {
    PassIndices(descriptions, sets, allocate);
    var e := EncodePrimitiveFeaturesAnyThreadPart(descriptions, sets, allocate);
    CoveredIncreasingIsIdentity(IndicesOf(e), |sets|);
  }

  /** The names the pass gives two unlabeled texture sets. */
  lemma TwoTextureSetNames(image: Image)
    ensures var sets := [TextureSetOf(image, 0), TextureSetOf(image, 0)];
            && NameInPass(sets, 0) == FeatureIdTexturePrefix + "0"
            && NameInPass(sets, 1) == FeatureIdTexturePrefix + "1"
  {
    var sets := [TextureSetOf(image, 0), TextureSetOf(image, 0)];
    assert sets[..0] == [] && sets[..1] == [sets[0]];
    assert UnlabeledTextureCount([sets[0]]) == 1 by {
      assert [sets[0]][..0] == [];
    }
    assert Decimal.IntToString(0) == "0";
    assert Decimal.IntToString(1) == "1";
  }

  /** The two descriptions that ask for the first two generated texture names. */
  function TwoTextureDescriptions(): seq<FeatureIdSetDescription> {
    [FeatureIdSetDescription(FeatureIdTexturePrefix + "0", ""),
     FeatureIdSetDescription(FeatureIdTexturePrefix + "1", "")]
  }

  lemma TwoTextureSetsSelected(image: Image, allocate: Allocator)
    requires CanAllocateImage(allocate, image)
    ensures var sets := [TextureSetOf(image, 0), TextureSetOf(image, 0)];
            forall j :: 0 <= j < |sets| ==> IsSelected(TwoTextureDescriptions(), sets, j, allocate)
  {
    var descriptions := TwoTextureDescriptions();
    var sets := [TextureSetOf(image, 0), TextureSetOf(image, 0)];
    TwoTextureSetNames(image);
    assert descriptions[0].name == FeatureIdTexturePrefix + "0";
    assert descriptions[1].name == FeatureIdTexturePrefix + "1";
    assert IsSelected(descriptions, sets, 0, allocate);
    assert IsSelected(descriptions, sets, 1, allocate);
  }

  /** Two encodings pointing at one texture realize it once. */
  lemma SharedPairRealizedOnce(e: seq<EncodedFeatureIdSet>)
    requires |e| == 2 && e[0].texture.Some? && e[1].texture.Some?
    requires e[0].texture.value.pointer == e[1].texture.value.pointer
    ensures AppendUnseen([], TexturesOf(e)) == [e[0].texture.value.pointer]
  {
    PairPointers(e);
    RepeatSeenOnce(e[0].texture.value.pointer);
  }

  /** The textures of two encodings pointing at one texture. */
  lemma PairPointers(e: seq<EncodedFeatureIdSet>)
    requires |e| == 2 && e[0].texture.Some? && e[1].texture.Some?
    requires e[0].texture.value.pointer == e[1].texture.value.pointer
    ensures TexturesOf(e) == [e[0].texture.value.pointer, e[0].texture.value.pointer]
  {
    var p := e[0].texture.value.pointer;
    assert PointerOf(e[0]) == Some(p) && PointerOf(e[1]) == Some(p);
    assert e[..1][..0] == [];
    assert FilterMap(e[..1], PointerOf) == [p];
    assert e[..|e| - 1] == e[..1];
  }

  /** A texture met twice is recorded once. */
  lemma RepeatSeenOnce(p: TexturePointer)
    ensures AppendUnseen([], [p, p]) == [p]
  {
    assert AppendUnseen([], [p]) == [p] by {
      assert [p][..0] == [];
    }
    assert [p, p][..1] == [p];
  }

  /** Two unlabeled texture sets reading one image, both asked for under their
      generated names: phase one emits both, they share one texture, and
      phase two realizes that texture and no other. */
  lemma TwoSetsOneImage(image: Image, allocate: Allocator)
    requires CanAllocateImage(allocate, image)
    ensures var sets := [TextureSetOf(image, 0), TextureSetOf(image, 0)];
            var e := EncodePrimitiveFeaturesAnyThreadPart(TwoTextureDescriptions(), sets, allocate);
            && |e| == 2
            && e[0].name == FeatureIdTexturePrefix + "0"
            && e[1].name == FeatureIdTexturePrefix + "1"
            && e[0].texture.Some? && e[1].texture.Some?
            && e[0].texture.value.pointer == e[1].texture.value.pointer
            && AppendUnseen([], TexturesOf(e)) == [e[0].texture.value.pointer]
  {
    var descriptions := TwoTextureDescriptions();
    var sets := [TextureSetOf(image, 0), TextureSetOf(image, 0)];
    TwoTextureSetNames(image);
    TwoTextureSetsSelected(image, allocate);
    AllSelectedAllEmitted(descriptions, sets, allocate);
    var e := EncodePrimitiveFeaturesAnyThreadPart(descriptions, sets, allocate);
    assert Reflects(e[0], descriptions, sets) && Reflects(e[1], descriptions, sets);
    assert SameImage(sets, e[0], e[1]);
    SharedPairRealizedOnce(e);
  }

  /** An implicit set asked for by the literal implicit name is encoded with
      no attribute and no texture, and with the description's property table
      name and its own null feature ID. */
  lemma ImplicitSetEncoding(nullFeatureId: int, propertyTableName: string, allocate: Allocator)
    ensures var descriptions := [FeatureIdSetDescription(ImplicitFeatureIdName, propertyTableName)];
            var sets := [FeatureIdSet(ImplicitSet, "", nullFeatureId)];
            EncodePrimitiveFeaturesAnyThreadPart(descriptions, sets, allocate)
              == [EncodedFeatureIdSet(ImplicitFeatureIdName, 0, propertyTableName, nullFeatureId, None, None)]
  {
    var descriptions := [FeatureIdSetDescription(ImplicitFeatureIdName, propertyTableName)];
    var sets := [FeatureIdSet(ImplicitSet, "", nullFeatureId)];
    var e := EncodePrimitiveFeaturesAnyThreadPart(descriptions, sets, allocate);
    assert sets[..0] == [];
    assert NameInPass(sets, 0) == ImplicitFeatureIdName;
    assert descriptions[0].name == ImplicitFeatureIdName;
    assert IsSelected(descriptions, sets, 0, allocate);
    AllSelectedAllEmitted(descriptions, sets, allocate);
    assert Reflects(e[0], descriptions, sets);
    assert e[0].name == ImplicitFeatureIdName;
    assert e[0].propertyTableName == propertyTableName;
  }

  /** The description of an unsigned-byte scalar called "height", coerced,
      with no offset, scale, no-data or default. */
  function HeightDescription(valueType: MetadataValueType): PropertyTablePropertyDescription {
    PropertyTablePropertyDescription(
      "height",
      PropertyDetails(valueType, false, false, false, false, false),
      EncodingDetails(Scalar, Uint8, Coerce))
  }

  /** A ten-row table whose one valid, non-normalized property "height" is
      asked for as an unsigned-byte scalar: it is encoded as the single
      property "height" with a 4 x 4 single-byte texture of 16 bytes and none
      of offset, scale, no-data or default. */
  lemma HeightTableEncoding(
    property: PropertyTableProperty, tableName: string, className: string,
    converters: Converters, allocate: Allocator)
    requires property.isValid && !property.isNormalized
    requires converters.canCoerce(HeightDescription(property.valueType))
    requires allocate(4, 4, R8Uint)
    ensures var d := HeightDescription(property.valueType);
            var table := PropertyTable(tableName, className, 10, [NamedProperty("height", property)]);
            EncodePropertyTableAnyThreadPart(PropertyTableDescription(tableName, [d]), table, converters, allocate).properties
              == [HeightEncoding()]
  {
    var d := HeightDescription(property.valueType);
    var entry := NamedProperty("height", property);
    HeightPropertyEncoding(property, converters, allocate);
    assert FindPropertyDescription([d], "height") == Some(d);
    assert PropertyEncoder(PropertyTableDescription(tableName, [d]), 10, converters, allocate)(entry) == Some(HeightEncoding());
    assert [entry][..0] == [];
  }

  /** The expected encoding of the ten-row "height" property. */
  function HeightEncoding(): EncodedPropertyTableProperty {
    EncodedPropertyTableProperty("height", Scalar, Some(TableTexture(4, R8Uint, Some(16))), None, None, None, None)
  }

  /** The "height" property on its own, against its description. */
  lemma HeightPropertyEncoding(property: PropertyTableProperty, converters: Converters, allocate: Allocator)
    requires property.isValid && !property.isNormalized
    requires converters.canCoerce(HeightDescription(property.valueType))
    requires allocate(4, 4, R8Uint)
    ensures EncodeDescribedProperty(HeightDescription(property.valueType), property, 10, converters, allocate)
              == Some(HeightEncoding())
  {
    var d := HeightDescription(property.valueType);
    TenRowsNeedSideFour();
    HlslNames.SafeNameFixedPoints("height");
    assert HlslNames.AllTailChars("height");
    HlslNames.AllTailCharsMeans("height");
    assert HlslNames.IsSafeName("height");
    assert PropertyTexture(true, 10, GetPixelFormat(Scalar, Uint8), allocate) == Some(TableTexture(4, R8Uint, Some(16)));
  }

  /** Ten rows need a 4 x 4 texture. */
  lemma TenRowsNeedSideFour()
    ensures TextureDimension(10) == 4
  {
    FloorSqrtUnique(10, 3);
  }

  // ---------------------------------------------------------------------------
  // Names are matched ignoring case

  /** A live table named `houses` is encoded against the description `Houses`
      and keeps its own name. */
  lemma TableMatchIgnoresCase(className: string, count: nat, converters: Converters, allocate: Allocator)
    ensures var description := ModelMetadataDescription([PropertyTableDescription("Houses", [])]);
            var metadata := ModelMetadata([PropertyTable("houses", className, count, [])], []);
            EncodeModelMetadataAnyThreadPart(description, metadata, converters, allocate).propertyTables
              == [EncodedPropertyTable("houses", [])]
  {
    var tables := [PropertyTableDescription("Houses", [])];
    var live := PropertyTable("houses", className, count, []);
    HousesExample();
    assert FindTableDescription(tables, "houses") == Some(tables[0]);
    assert EncodePropertyTableAnyThreadPart(tables[0], live, converters, allocate).properties == [];
    var f := TableEncoder(ModelMetadataDescription(tables), converters, allocate);
    assert f(live) == Some(EncodedPropertyTable("houses", []));
    assert [live][..0] == [];
  }

  /** The live key `height` is encoded against the description `HEIGHT` and
      takes the description's spelling. */
  lemma PropertyMatchIgnoresCase(property: PropertyTableProperty, converters: Converters, allocate: Allocator)
    requires property.isValid && !property.isNormalized
    requires converters.canCoerce(HeightDescription(property.valueType).(name := "HEIGHT"))
    requires allocate(4, 4, R8Uint)
    ensures var d := HeightDescription(property.valueType).(name := "HEIGHT");
            var table := PropertyTable("t", "", 10, [NamedProperty("height", property)]);
            EncodePropertyTableAnyThreadPart(PropertyTableDescription("t", [d]), table, converters, allocate).properties
              == [HeightEncoding().(name := "HEIGHT")]
  {
    var d := HeightDescription(property.valueType).(name := "HEIGHT");
    var entry := NamedProperty("height", property);
    TenRowsNeedSideFour();
    assert HlslNames.AllTailChars("HEIGHT");
    HlslNames.AllTailCharsMeans("HEIGHT");
    HlslNames.SafeNameFixedPoints("HEIGHT");
    assert PropertyTexture(true, 10, GetPixelFormat(Scalar, Uint8), allocate) == Some(TableTexture(4, R8Uint, Some(16)));
    assert EncodeDescribedProperty(d, property, 10, converters, allocate) == Some(HeightEncoding().(name := "HEIGHT"));
    assert ToLowerAscii('H') == 'h';
    assert EqualsIgnoreCase("HEIGHT", "height");
    assert FindPropertyDescription([d], "height") == Some(d);
    assert PropertyEncoder(PropertyTableDescription("t", [d]), 10, converters, allocate)(entry)
        == Some(HeightEncoding().(name := "HEIGHT"));
    assert [entry][..0] == [];
  }

  /** An unlabeled texture set asked for as `_feature_id_texture_0` is encoded
      under its generated name `_FEATURE_ID_TEXTURE_0`. */
  lemma TextureSetMatchIgnoresCase(image: Image, allocate: Allocator)
    requires CanAllocateImage(allocate, image)
    ensures var descriptions := [FeatureIdSetDescription("_feature_id_texture_0", "")];
            var e := EncodePrimitiveFeaturesAnyThreadPart(descriptions, [TextureSetOf(image, 0)], allocate);
            |e| == 1 && e[0].name == "_FEATURE_ID_TEXTURE_0"
  {
    var descriptions := [FeatureIdSetDescription("_feature_id_texture_0", "")];
    var sets := [TextureSetOf(image, 0)];
    assert sets[..0] == [];
    assert Decimal.IntToString(0) == "0";
    assert NameInPass(sets, 0) == "_FEATURE_ID_TEXTURE_0";
    HousesExample();
    assert IsSelected(descriptions, sets, 0, allocate);
    AllSelectedAllEmitted(descriptions, sets, allocate);
    var e := EncodePrimitiveFeaturesAnyThreadPart(descriptions, sets, allocate);
    assert Reflects(e[0], descriptions, sets);
  }
}
