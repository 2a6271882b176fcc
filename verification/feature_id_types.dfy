/** Feature ID sets of a primitive, the descriptions that ask for them, and
    their encoded form. */
module FeatureIdTypes {
  import opened Optional
  import opened Sequences
  import opened CaseFolding

  /** A decoded source image. Two feature ID textures reference the same image
      object exactly when they hold equal `Image` values (`id` tells apart
      distinct images with equal sizes). */
  datatype Image = Image(id: nat, width: nat, height: nat)

  /** A feature ID vertex attribute; `isValid` is its status being Valid. */
  datatype FeatureIdAttribute = FeatureIdAttribute(isValid: bool, attributeIndex: int)

  /** A feature ID texture view; `isValid` is its status being Valid. */
  datatype FeatureIdTexture = FeatureIdTexture(
    isValid: bool,
    image: Image,
    channels: seq<int>,
    texCoordSetIndex: int)

  /** The kind of a feature ID set, with the view it carries. */
  datatype FeatureIdSetKind =
    | NoKind
    | AttributeSet(attribute: FeatureIdAttribute)
    | TextureSet(texture: FeatureIdTexture)
    | ImplicitSet

  /** A live feature ID set of a primitive. An empty label means "no label". */
  datatype FeatureIdSet = FeatureIdSet(kind: FeatureIdSetKind, labelText: string, nullFeatureId: int)

  /** A requested feature ID set: its name and the property table it indexes. */
  datatype FeatureIdSetDescription = FeatureIdSetDescription(name: string, propertyTableName: string)

  /** A shared pointer to an in-flight texture: null, or the texture created by
      the `id`-th cache miss of the pass. */
  datatype TexturePointer = Null | Shared(id: nat)

  datatype EncodedFeatureIdTexture = EncodedFeatureIdTexture(
    channels: seq<int>,
    texCoordSetIndex: int,
    pointer: TexturePointer)

  /** An encoded feature ID set; `index` is the live set's position. */
  datatype EncodedFeatureIdSet = EncodedFeatureIdSet(
    name: string,
    index: nat,
    propertyTableName: string,
    nullFeatureId: int,
    attribute: Option<int>,
    texture: Option<EncodedFeatureIdTexture>)

  /** A set whose name is generated from the running texture counter. */
  predicate IsUnlabeledTexture(idSet: FeatureIdSet) {
    |idSet.labelText| == 0 && idSet.kind.TextureSet?
  }

  /** How many sets of `sets` would bump the texture counter. */
  function UnlabeledTextureCount(sets: seq<FeatureIdSet>): nat
    decreases |sets|
  {
    if |sets| == 0 then 0
    else
      UnlabeledTextureCount(sets[..|sets| - 1])
      + (if IsUnlabeledTexture(sets[|sets| - 1]) then 1 else 0)
  }

  /** The first description whose name equals `name` ignoring ASCII case
      (`FindByPredicate` with the engine's case-insensitive string equality). */
  function FindFeatureIdSetDescription(descriptions: seq<FeatureIdSetDescription>, name: string)
    : (r: Option<FeatureIdSetDescription>)
    ensures r.Some? <==> exists k :: 0 <= k < |descriptions| && EqualsIgnoreCase(descriptions[k].name, name)
    ensures r.Some? ==> EqualsIgnoreCase(r.value.name, name) && r.value in descriptions
  {
    FindFirst(descriptions, (d: FeatureIdSetDescription) => EqualsIgnoreCase(d.name, name))
  }

  /** The description found for a name is the first one equal to it ignoring
      case, so a set takes the property table name of the first such
      description. */
  lemma FoundDescriptionIsFirst(descriptions: seq<FeatureIdSetDescription>, name: string)
    requires FindFeatureIdSetDescription(descriptions, name).Some?
    ensures exists k :: 0 <= k < |descriptions| && descriptions[k] == FindFeatureIdSetDescription(descriptions, name).value
              && forall j :: 0 <= j < k ==> !EqualsIgnoreCase(descriptions[j].name, name)
  {
    FindFirstIsFirst(descriptions, (d: FeatureIdSetDescription) => EqualsIgnoreCase(d.name, name));
  }
}
