# Encoded features and metadata: a Dafny model

This project models the decision logic of `CesiumEncodedFeaturesMetadata.cpp`. That file turns a glTF
primitive's feature ID sets and a model's property tables into GPU-ready encodings. It works in two
phases:

- **Phase one** runs on a worker thread. It decides which live sets and properties a description asks
  for. It names them, picks a pixel format and texture size for each property, and stages one shared
  texture per feature ID source image.
- **Phase two** runs on the game thread. It turns each staged texture into an engine resource, once per
  distinct texture, and reports the AND of all outcomes.

The model is functional:

- Live data, descriptions and encodings are immutable datatypes.
- Phase one is a set of pure functions. Passes are folds over prefixes, so lemmas can reason about any
  prefix of a pass.
- Phase two is a set of methods with loop invariants over a linear "already realized" list.
- Three things are parameters, because they happen in engine code outside this file:
  - texture allocation (`Allocator`: may a `w` x `h` texture in a format be created);
  - the converters' `canEncode` checks (`Converters`);
  - game-thread realization (`realize`).
- A feature ID source image is identified by its `Image` value.
- A shared texture is `Shared(n)`: the texture created by the `n`-th image-cache miss of the pass.
- The dedup cache maps images to `Alive(n)` or `Expired`. `Expired` is a weak reference whose
  texture has already been freed.

Modules:

| module | concern |
|---|---|
| `HlslNames` | the shader-safe identifier transform |
| `Decimal` | `std::to_string` on integers |
| `CaseFolding` | name comparison ignoring ASCII case, as the engine's string equality does |
| `Names` | names of feature ID sets, property tables and material parameters |
| `PixelFormats` | pixel format selection |
| `TextureDimensions` | the side of the square property texture |
| `FeatureIdTypes`, `MetadataTypes` | the data model |
| `FeatureIdEncoder` | the phase-one pass over feature ID sets, with the image cache |
| `PropertyTableEncoder`, `ModelMetadataEncoder` | phase one for property tables and models |
| `Realization` | phase two |
| `Scenarios` | properties across both phases, and worked cases |
| `Sequences`, `Optional` | generic helpers |

Behaviours worth noting:

- A property whose texture cannot be allocated is not dropped. By the time the allocation is tried,
  the encoded property has already been added to the table. So it stays, with a texture that has no
  buffer and with none of offset, scale, no-data or default (`continue` skips lines 546-566).
- A texture is allocated only for a property whose status is Valid. Other properties are still emitted,
  without a texture.
- Feature ID set names are not made shader-safe. A label is returned verbatim. Only property names go
  through `createHlslSafeName`.
- A name of blanks is not mapped to `_`. A single blank becomes `__`: the added head `_` and the
  replaced blank.
- Encoded properties and tables follow the live iteration order, not the description order.
- Sharing textures by source image happens per primitive pass, not across a whole model.
- Names are matched against descriptions ignoring ASCII case, as the engine's string equality does
  (`CaseFolding.EqualsIgnoreCase`). Like the engine's comparison, only ASCII letters are folded. The
  first matching description wins. A matched property takes the spelling of its description's name; a
  matched table or feature ID set keeps its own.

## Model

| member | source | states |
|---|---|---|
| `HlslNames.SafeName` | Source/CesiumRuntime/Private/CesiumEncodedFeaturesMetadata.cpp:931-953 | The result is always a safe identifier: non-empty, head in `[A-Za-z_]`, rest in `[A-Za-z0-9_]`. The empty name gives `_`. A name with a valid head keeps its length and head, and every later character is kept when allowed and `_` otherwise. A name with an invalid head gets a `_` in front and is one longer, with every original character kept when allowed and `_` otherwise. |
| `HlslNames.CreateHlslSafeName` | Source/CesiumRuntime/Private/CesiumEncodedFeaturesMetadata.cpp:936-952 | The in-place loop (copy, optional `_` prefix, overwrite from position 1) computes exactly `SafeName` and so always returns a safe identifier. |
| `HlslNames.SafeNameFixedPoints` | Source/CesiumRuntime/Private/CesiumEncodedFeaturesMetadata.cpp:938-950 | Sanitising leaves a name unchanged if and only if it is already a safe identifier. |
| `HlslNames.SafeNameIdempotent` | Source/CesiumRuntime/Private/CesiumEncodedFeaturesMetadata.cpp:938-950 | Sanitising twice gives the same as sanitising once. |
| `HlslNames.SafeNamePreservesAllowed` | Source/CesiumRuntime/Private/CesiumEncodedFeaturesMetadata.cpp:941-950 | An allowed character after the head survives. It stays at its position, or one to the right when a `_` was put in front. |
| `HlslNames.LeadingDigitExample` | Source/CesiumRuntime/Private/CesiumEncodedFeaturesMetadata.cpp:941-943 | `"1abc"` becomes `"_1abc"`. |
| `HlslNames.BlankNameExample` | Source/CesiumRuntime/Private/CesiumEncodedFeaturesMetadata.cpp:941-950 | `" "` becomes `"__"`: blanks are neither trimmed nor collapsed. |
| `Decimal.IntToString` | Source/CesiumRuntime/Private/CesiumEncodedFeaturesMetadata.cpp:49-50 | The rendering of an integer is non-empty. It starts with a digit exactly when the integer is not negative. A negative integer gets a `-` followed by digits only. |
| `Decimal.IntToStringValue` | Source/CesiumRuntime/Private/CesiumEncodedFeaturesMetadata.cpp:49-50 | The digits of a rendering, after the `-` of a negative integer, read back as the integer's magnitude. Only zero renders with a leading `0`, and the digits after a `-` never start with `0`. |
| `Decimal.NatToStringValue` | Source/CesiumRuntime/Private/CesiumEncodedFeaturesMetadata.cpp:49-50 | The digits of a number read back, most significant first, as that number, and have no leading zero. |
| `Decimal.IntToStringInjective` | Source/CesiumRuntime/Private/CesiumEncodedFeaturesMetadata.cpp:56-57 | Different integers are rendered differently. |
| `Names.NameForFeatureIdSet` | Source/CesiumRuntime/Private/CesiumEncodedFeaturesMetadata.cpp:30-69 | The precedence is: a non-empty label verbatim; else `_FEATURE_ID_<index>` for a valid attribute; `_FEATURE_ID_TEXTURE_<counter>` for a texture; `_IMPLICIT_FEATURE_ID` for an implicit set; the empty name otherwise. The counter goes up by one exactly for an unlabeled texture set. |
| `Names.TextureNamesDistinct` | Source/CesiumRuntime/Private/CesiumEncodedFeaturesMetadata.cpp:56-58 | Different counter values give different texture names. |
| `Names.PassTextureNamesDistinct` | Source/CesiumRuntime/Private/CesiumEncodedFeaturesMetadata.cpp:197-201 | Within one pass, two unlabeled texture sets at different positions get different names. |
| `Names.GeneratedNameFamiliesDisjoint` | Source/CesiumRuntime/Private/CesiumEncodedFeaturesMetadata.cpp:48-64 | No attribute name equals a texture name or the implicit name, and no texture name equals the implicit name. |
| `Names.GeneratedNamesAreSafe` | Source/CesiumRuntime/Private/CesiumEncodedFeaturesMetadata.cpp:48-64 | A non-empty generated name with a non-negative attribute index is already a safe identifier. |
| `Names.NameForPropertyTable` | Source/CesiumRuntime/Private/CesiumEncodedFeaturesMetadata.cpp:288-298 | A table is named by its own name when that is non-empty, and by its class name otherwise. |
| `Names.NameForPropertyTableChoice` | Source/CesiumRuntime/Private/CesiumEncodedFeaturesMetadata.cpp:288-298 | A named table's name does not depend on its class. A table's name is empty only when both its name and its class name are. |
| `Names.MaterialNameForPropertyTableProperty` | Source/CesiumRuntime/Private/CesiumEncodedFeaturesMetadata.cpp:300-305 | `PTABLE_`, the table name, `_` and the property name can each be read back at fixed positions of the result. |
| `Names.MaterialNamesDistinct` | Source/CesiumRuntime/Private/CesiumEncodedFeaturesMetadata.cpp:300-305 | Within one table, different property names give different material names. |
| `PixelFormats.GetPixelFormat` | Source/CesiumRuntime/Private/CesiumEncodedFeaturesMetadata.cpp:316-344 | A format exists exactly when both type and component are specified. A pixel size of 0 marks the missing format. The size equals the format's channels times channel width. The format has room for every component, and its channels are as wide as the component. |
| `PixelFormats.VectorsShareFourChannelFormat` | Source/CesiumRuntime/Private/CesiumEncodedFeaturesMetadata.cpp:321-341 | Vectors of two, three and four components share one four-channel format. Scalars get one channel. |
| `TextureDimensions.FloorSqrt` | Source/CesiumRuntime/Private/CesiumEncodedFeaturesMetadata.cpp:492 | The result `s` is the integer square root: `s*s <= n < (s+1)*(s+1)`. |
| `TextureDimensions.TextureDimension` | Source/CesiumRuntime/Private/CesiumEncodedFeaturesMetadata.cpp:492-496 | The side `d` satisfies `d*d >= count` and, for `count > 0`, `(d-1)*(d-1) < count`. It is 0 exactly for 0 rows. |
| `TextureDimensions.TextureDimensionMinimal` | Source/CesiumRuntime/Private/CesiumEncodedFeaturesMetadata.cpp:492-496 | No smaller square holds every row. |
| `TextureDimensions.BufferHoldsEveryRow` | Source/CesiumRuntime/Private/CesiumEncodedFeaturesMetadata.cpp:526-527 | A `d*d*pixelSize`-byte buffer has room for one texel per row. |
| `TextureDimensions.FloorSqrtUnique` | Source/CesiumRuntime/Private/CesiumEncodedFeaturesMetadata.cpp:492 | The integer square root is the only `s` with `s*s <= n < (s+1)*(s+1)`. |
| `FeatureIdTypes.FindFeatureIdSetDescription` | Source/CesiumRuntime/Private/CesiumEncodedFeaturesMetadata.cpp:202-207 | A description is found exactly when one has the name ignoring ASCII case. The one found is in the list and has that name, ignoring case. |
| `FeatureIdTypes.FoundDescriptionIsFirst` | Source/CesiumRuntime/Private/CesiumEncodedFeaturesMetadata.cpp:202-235 | The description a set is matched against is the first one whose name equals the set's name ignoring ASCII case. The set takes that description's property table name. |
| `Sequences.FindFirst` | Source/CesiumRuntime/Private/CesiumEncodedFeaturesMetadata.cpp:427-432 | A predicate search finds something exactly when some element satisfies the predicate, and what it finds is an element that does. |
| `Sequences.FindFirstIsFirst` | Source/CesiumRuntime/Private/CesiumEncodedFeaturesMetadata.cpp:427-432 | What a predicate search finds sits at a position before which no element satisfies the predicate. |
| `MetadataTypes.FindPropertyDescription` | Source/CesiumRuntime/Private/CesiumEncodedFeaturesMetadata.cpp:427-432 | A property description is found exactly when one has the key ignoring ASCII case. The one found is in the list and has that name, ignoring case. |
| `MetadataTypes.FindTableDescription` | Source/CesiumRuntime/Private/CesiumEncodedFeaturesMetadata.cpp:766-771 | A table description is found exactly when one has the resolved name ignoring ASCII case. The one found is in the list and has that name, ignoring case. |
| `FeatureIdEncoder.EncodeFeatureIdAttribute` | Source/CesiumRuntime/Private/CesiumEncodedFeaturesMetadata.cpp:81-98 | An attribute is encoded exactly when it is valid, as its attribute index and with no texture. |
| `FeatureIdEncoder.EncodeFeatureIdTextureAsWritten` | Source/CesiumRuntime/Private/CesiumEncodedFeaturesMetadata.cpp:100-177 | As the code stands, a valid texture whose image is already cached is encoded with whatever the cached weak reference pins, even when that is null. |
| `FeatureIdEncoder.ExpiredHitYieldsNullTexture` | Source/CesiumRuntime/Private/CesiumEncodedFeaturesMetadata.cpp:129-157 | If an image's texture cannot be allocated, the first texture reading it is skipped. The next one reading the same image is emitted with a null texture. |
| `FeatureIdEncoder.EncodeFeatureIdTexture` | Source/CesiumRuntime/Private/CesiumEncodedFeaturesMetadata.cpp:100-177 | Existing cache entries never change. Only a valid texture with a new image adds an entry, alive exactly when allocation succeeds, and uses up one texture number. An encoding exists exactly when the image's entry is alive. It then keeps the view's channels and texture coordinate set and points at that entry's texture. |
| `FeatureIdEncoder.CorrectedStepNeverNull` | Source/CesiumRuntime/Private/CesiumEncodedFeaturesMetadata.cpp:129-157 | The corrected texture encoder never hands out a null texture. |
| `FeatureIdEncoder.PassCounter` | Source/CesiumRuntime/Private/CesiumEncodedFeaturesMetadata.cpp:197-201 | After the pass, the name counter equals the number of unlabeled texture sets seen. |
| `FeatureIdEncoder.PassCache` | Source/CesiumRuntime/Private/CesiumEncodedFeaturesMetadata.cpp:129-157 | Throughout the pass, a cache entry is alive exactly when its image can be allocated. Live texture numbers are below the count of textures created, and no two images share a live texture. |
| `FeatureIdEncoder.SourceStepSelects` | Source/CesiumRuntime/Private/CesiumEncodedFeaturesMetadata.cpp:214-231 | With a consistent cache, a set yields an encoding exactly when it is a valid attribute, a valid texture whose image can be allocated, or an implicit set. |
| `FeatureIdEncoder.PassShape` | Source/CesiumRuntime/Private/CesiumEncodedFeaturesMetadata.cpp:199-240 | Every encoding reflects the live set at its `index`: the pass's name for it, the first description whose name equals it ignoring ASCII case, whose property table name it copies, the set's null feature ID, and a shape matching the set's kind. Indices strictly increase. Every encoded texture is its image's live cache entry. |
| `FeatureIdEncoder.PassComplete` | Source/CesiumRuntime/Private/CesiumEncodedFeaturesMetadata.cpp:199-240 | A live set is encoded if and only if some description's name equals its name ignoring ASCII case and it is encodable. |
| `FeatureIdEncoder.PassSharesTextures` | Source/CesiumRuntime/Private/CesiumEncodedFeaturesMetadata.cpp:129-139 | Two encoded textures share one texture if and only if their live sets read the same image. |
| `FeatureIdEncoder.EncodePrimitiveFeaturesAnyThreadPart` | Source/CesiumRuntime/Private/CesiumEncodedFeaturesMetadata.cpp:180-243 | The encoded sets are a subsequence of the live sets in live order, each reflecting its live set. A live set appears exactly when it is selected: a description names it, ignoring ASCII case, and it is encodable. Two encoded textures are the same texture exactly when they read the same image. |
| `PropertyTableEncoder.IsValidPropertyTablePropertyDescription` | Source/CesiumRuntime/Private/CesiumEncodedFeaturesMetadata.cpp:346-404 | Accepts if and only if: type and component type are specified; the normalized flags agree; and a normalized live property has unsigned-byte components. |
| `PropertyTableEncoder.NormalizedNonByteRejected` | Source/CesiumRuntime/Private/CesiumEncodedFeaturesMetadata.cpp:393-401 | A normalized description of a property whose components are not unsigned bytes is always rejected. |
| `PropertyTableEncoder.ExpectedValueTypeIgnored` | Source/CesiumRuntime/Private/CesiumEncodedFeaturesMetadata.cpp:369-380 | Changing the value type a description expects never changes the verdict: a mismatch only warns. |
| `PropertyTableEncoder.PropertyTexture` | Source/CesiumRuntime/Private/CesiumEncodedFeaturesMetadata.cpp:488-527 | A texture exists exactly for a Valid property. It is square with the texture dimension of the row count, in the selected format. Its buffer exists exactly when allocation succeeds, and then holds `d*d*pixelSize` bytes. |
| `PropertyTableEncoder.EncodeDescribedProperty` | Source/CesiumRuntime/Private/CesiumEncodedFeaturesMetadata.cpp:438-566 | A matched property is emitted exactly when: its conversion is not None; the description is valid for it; the converter accepts it; and a pixel format exists. It then carries the safe form of the description's name, the encoded type and the texture above. Unless allocation failed, offset, scale, no-data and default are present exactly when flagged, and are the live values. After a failed allocation all four are absent. |
| `PropertyTableEncoder.EncodePropertyTableAnyThreadPart` | Source/CesiumRuntime/Private/CesiumEncodedFeaturesMetadata.cpp:408-570 | There are never more encoded properties than live ones, and every encoded name is a safe identifier. |
| `PropertyTableEncoder.EncodedPropertiesFollowLiveOrder` | Source/CesiumRuntime/Private/CesiumEncodedFeaturesMetadata.cpp:424-566 | The encoded properties are the encodings of live properties at strictly increasing positions. A live property appears if and only if a description whose name equals its key ignoring ASCII case exists, and the first such passes every check. |
| `PropertyTableEncoder.EncodedPropertiesAreDescribed` | Source/CesiumRuntime/Private/CesiumEncodedFeaturesMetadata.cpp:427-485 | Every encoded property is named by the safe form of some description's name. |
| `ModelMetadataEncoder.EncodeModelMetadataAnyThreadPart` | Source/CesiumRuntime/Private/CesiumEncodedFeaturesMetadata.cpp:752-814 | There are no encoded property textures, at most one encoded table per live table, and every encoded table carries a name that equals some table description's name ignoring ASCII case. |
| `ModelMetadataEncoder.EncodedTablesFollowLiveOrder` | Source/CesiumRuntime/Private/CesiumEncodedFeaturesMetadata.cpp:763-782 | The encoded tables come from live tables at strictly increasing positions. Each carries its live table's resolved name and that table's properties encoded against the first description whose name equals it ignoring ASCII case. A live table is encoded if and only if such a description exists. |
| `Realization.RealizeUnseen` | Source/CesiumRuntime/Private/CesiumEncodedFeaturesMetadata.cpp:256-267 | The seen list grows by the new textures in order of first appearance and keeps its old prefix. The result is true exactly when every realization it made succeeded. A failure does not stop the walk. |
| `Realization.EncodePrimitiveFeaturesGameThreadPart` | Source/CesiumRuntime/Private/CesiumEncodedFeaturesMetadata.cpp:245-270 | Exactly the textures of the encoded sets are realized, each once, in order of first use. The result is the AND of those realizations. |
| `Realization.EncodePropertyTableGameThreadPart` | Source/CesiumRuntime/Private/CesiumEncodedFeaturesMetadata.cpp:816-831 | Every property that has a texture has it realized, in property order. The result is the AND of those realizations. |
| `Realization.RealizePropertyTextures` | Source/CesiumRuntime/Private/CesiumEncodedFeaturesMetadata.cpp:833-849 | Across all property textures, with one shared seen list, each distinct texture is realized once. The result is the AND of those realizations. |
| `Realization.RealizeTables` | Source/CesiumRuntime/Private/CesiumEncodedFeaturesMetadata.cpp:886-888 | Every table's owned textures are realized, table after table. The result is the AND of all of them. |
| `Realization.EncodeModelMetadataGameThreadPart` | Source/CesiumRuntime/Private/CesiumEncodedFeaturesMetadata.cpp:873-891 | Property textures are realized first, each distinct texture once, then every table texture. The result is true exactly when every realization succeeded. |
| `Sequences.AppendUnseenSpec` | Source/CesiumRuntime/Private/CesiumEncodedFeaturesMetadata.cpp:261-265 | The linear seen list keeps its prefix and never holds a texture twice. It ends up holding exactly the old entries and the textures walked. |
| `Scenarios.SharedImageRealizedOnce` | Source/CesiumRuntime/Private/CesiumEncodedFeaturesMetadata.cpp:180-270 | Across both phases, every encoded texture is a live shared texture that phase two realizes exactly once. Sets reading the same image point at the same texture. |
| `Scenarios.PassIndices` | Source/CesiumRuntime/Private/CesiumEncodedFeaturesMetadata.cpp:199-240 | The live positions behind the encodings strictly increase, lie within the live list, and include every selected position. |
| `Scenarios.AllSelectedAllEmitted` | Source/CesiumRuntime/Private/CesiumEncodedFeaturesMetadata.cpp:199-240 | When every live set is selected, there is one encoding per live set, the k-th for the k-th set. |
| `Scenarios.TwoSetsOneImage` | Source/CesiumRuntime/Private/CesiumEncodedFeaturesMetadata.cpp:180-270 | Take two unlabeled texture sets on one allocatable image, asked for as `_FEATURE_ID_TEXTURE_0` and `_FEATURE_ID_TEXTURE_1`. Both are emitted under those names and share one texture, and phase two realizes that texture alone. |
| `Scenarios.ImplicitSetEncoding` | Source/CesiumRuntime/Private/CesiumEncodedFeaturesMetadata.cpp:226-239 | An implicit set asked for as `_IMPLICIT_FEATURE_ID` is encoded at index 0. It has no attribute and no texture, the description's property table name and its own null feature ID. |
| `Scenarios.HeightTableEncoding` | Source/CesiumRuntime/Private/CesiumEncodedFeaturesMetadata.cpp:408-570 | Take a ten-row table whose Valid property `height` is coerced to an unsigned-byte scalar with no optional fields. It encodes to that one property with a 4 x 4 single-byte texture of 16 bytes and nothing else. |
| `CaseFolding.FoldedCharsAgree` | Source/CesiumRuntime/Private/CesiumEncodedFeaturesMetadata.cpp:202-207 | Two characters match exactly when they are equal or are the two cases of one ASCII letter. |
| `CaseFolding.EqualsIgnoreCaseIsEquivalence` | Source/CesiumRuntime/Private/CesiumEncodedFeaturesMetadata.cpp:766-771 | Matching names is reflexive, symmetric and transitive. |
| `CaseFolding.HousesExample` | Source/CesiumRuntime/Private/CesiumEncodedFeaturesMetadata.cpp:766-771 | `houses` matches `Houses`, and `_feature_id_texture_0` matches `_FEATURE_ID_TEXTURE_0`. A name never matches a longer one. |
| `Scenarios.TableMatchIgnoresCase` | Source/CesiumRuntime/Private/CesiumEncodedFeaturesMetadata.cpp:763-782 | A live table `houses` with only a description `Houses` is encoded, under its own name `houses`. |
| `Scenarios.PropertyMatchIgnoresCase` | Source/CesiumRuntime/Private/CesiumEncodedFeaturesMetadata.cpp:424-566 | A live property `height` with only a description `HEIGHT` is encoded under the description's spelling `HEIGHT`. |
| `Scenarios.TextureSetMatchIgnoresCase` | Source/CesiumRuntime/Private/CesiumEncodedFeaturesMetadata.cpp:199-240 | An unlabeled texture set asked for as `_feature_id_texture_0` is encoded once, under its generated name `_FEATURE_ID_TEXTURE_0`. |
| `Scenarios.TenRowsNeedSideFour` | Source/CesiumRuntime/Private/CesiumEncodedFeaturesMetadata.cpp:492-496 | Ten rows need a side of 4. |

## Left out

- Texel contents are not modelled: the pixel copy, bulk-data locking, mip creation, address and filter
  settings (lines 146-148 and 159-176 for feature ID textures, 498-543 for property textures), and the converters' `encode` routines. Only the size of the
  buffer that allocation would produce is modelled.
- `canEncode` of the coerce and parse-color converters, texture allocation and game-thread realization
  are engine code outside this file. They are parameters of the model.
- Teardown is not modelled: `destroyEncodedPrimitiveFeatures`, `destroyEncodedPrimitiveMetadata`,
  `destroyEncodedModelMetadata` (lines 272-286 and 893-927). They release engine resources and return
  nothing.
- The property-texture encoder and the primitive-metadata functions (lines 572-750 and 851-871) are not
  modelled. Their bodies are commented out or return an empty result or `true`. Property textures enter
  the model only as already-encoded lists of shared textures, for the model-level phase two.
- Warnings and errors written to the log are not modelled.
- The worker/game-thread hand-off is modelled as one phase's result passed to the next. Concurrency is
  not modelled.
- Weak-pointer lifetime is modelled only as far as the image cache needs it. A cache entry is `Expired`
  exactly when its texture was dropped by a failed allocation in the same pass.
- Integer widths are not modelled: the 32-bit texture counter and the 64-bit row count are unbounded.
  The counter would need 2^31 texture sets to wrap.
- `TextureDimensions.FloorSqrt` is the exact integer square root, not `glm::sqrt` in floating point. For
  row counts near 2^53 and above, the floating-point root may round differently.
- Name clashes after sanitising are not handled by the code, so no injectivity of `createHlslSafeName`
  is claimed.
- `PropertyTableEncoder.EncodePropertyTableProperty` only looks up the first description by name and
  hands over to `EncodeDescribedProperty`. Its meaning is stated in the rows of
  `EncodeDescribedProperty` and `EncodedPropertiesFollowLiveOrder`.
- FeatureIdEncoder.PassShape: states the corrected texture encoder of the finding below. On a hit on
  an expired cache entry, the code as written emits a set with a null texture, which this row excludes.
- FeatureIdEncoder.PassComplete: states the corrected texture encoder. As written, a texture set hitting
  an expired cache entry is emitted although its image cannot be allocated.
- FeatureIdEncoder.EncodePrimitiveFeaturesAnyThreadPart: states the corrected texture encoder. As
  written, it can also emit sets with a null texture after a failed allocation.
- Scenarios.SharedImageRealizedOnce: states the corrected texture encoder. As written, a null texture
  can reach phase two, which then dereferences it.
- HlslNames.SafeName: works on Unicode scalar values, while the engine string walks UTF-16 code units.
  A character outside the Basic Multilingual Plane is one `_` in the model and two in the engine
  (`a` followed by U+1F600 gives `a_` here and `a__` there). For names inside that plane the two agree.
- HlslNames.CreateHlslSafeName: the same UTF-16 difference as `SafeName`.
- Realization.EncodePropertyTableGameThreadPart: owned textures are compared by value, so two
  properties with equal-valued textures get the same outcome from `realize`.

## Findings

| source | as written | input that shows it | evidently intended | confidence | as-written member | corrected member |
|---|---|---|---|---|---|---|
| Source/CesiumRuntime/Private/CesiumEncodedFeaturesMetadata.cpp:129-157 | On a cache miss the new texture is registered as a weak reference before allocation is tried. When allocation fails the result is dropped and the reference expires, but the cache entry stays. A later texture set on the same image hits the entry, `Pin()` returns null, and the set is emitted with a null texture. Phase two (line 264) and teardown (line 281) then use that null pointer. | Two valid unlabeled feature ID texture sets on one image whose `width` x `height` RGBA8 texture cannot be allocated, both asked for by a description. | A hit on an expired entry is skipped like the first set, so no encoded set carries a null texture. | not executed | `FeatureIdEncoder.EncodeFeatureIdTextureAsWritten`, `FeatureIdEncoder.ExpiredHitYieldsNullTexture` | `FeatureIdEncoder.EncodeFeatureIdTexture`, `FeatureIdEncoder.CorrectedStepNeverNull` |
