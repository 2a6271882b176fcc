/** The worker-thread encoding of one property table: every live property that
    a description asks for, that checks out against the description and that
    has a converter and a pixel format, becomes an encoded property with a
    square texture holding one texel per row. */
module PropertyTableEncoder {
  import opened Optional
  import opened Sequences
  import opened PixelFormats
  import opened TextureDimensions
  import opened HlslNames
  import opened MetadataTypes

  /** The description's checks against the live property: the encoded type and
      component type are specified, the normalization flag agrees with the
      live property, and only unsigned-byte values may be normalized. A
      mismatch of the expected value type is tolerated (the engine only warns). */
  function IsValidPropertyTablePropertyDescription(
    description: PropertyTablePropertyDescription, property: PropertyTableProperty): (r: bool)
    ensures r <==>
              && description.encoding.encodedType != NoType
              && description.encoding.componentType != NoComponent
              && description.details.isNormalized == property.isNormalized
              && (property.isNormalized ==> property.valueType.componentType == Uint8Component)
  {
    if description.encoding.encodedType == NoType then false
    else if description.encoding.componentType == NoComponent then false
    else if description.details.isNormalized != property.isNormalized then false
    else if property.isNormalized && property.valueType.componentType != Uint8Component then false
    else true
  }

  /** A description that says "normalized" is never accepted for a live
      property whose component is not an unsigned byte, whatever else it says. */
  lemma NormalizedNonByteRejected(description: PropertyTablePropertyDescription, property: PropertyTableProperty)
    requires description.details.isNormalized
    requires property.valueType.componentType != Uint8Component
    ensures !IsValidPropertyTablePropertyDescription(description, property)
  {
  }

  /** The value type the description expects plays no part in the decision. */
  lemma ExpectedValueTypeIgnored(
    description: PropertyTablePropertyDescription, property: PropertyTableProperty, expected: MetadataValueType)
    ensures IsValidPropertyTablePropertyDescription(description, property)
         == IsValidPropertyTablePropertyDescription(
              description.(details := description.details.(valueType := expected)), property)
  {
  }

  /** The converter named by the description claims to support it. */
  predicate ConverterAccepts(converters: Converters, description: PropertyTablePropertyDescription) {
    match description.encoding.conversion
    case NoConversion => false
    case Coerce => converters.canCoerce(description)
    case ParseColorFromString => converters.canParseColor(description)
  }

  /** Everything that must hold of a matched description for its property to
      be emitted. */
  predicate Emits(converters: Converters, description: PropertyTablePropertyDescription, property: PropertyTableProperty) {
    && description.encoding.conversion != NoConversion
    && IsValidPropertyTablePropertyDescription(description, property)
    && ConverterAccepts(converters, description)
    && GetPixelFormat(description.encoding.encodedType, description.encoding.componentType).format != Unknown
  }

  /** The texture was attempted but could not be allocated. */
  predicate AllocationFailed(e: EncodedPropertyTableProperty) {
    e.texture.Some? && e.texture.value.bufferBytes.None?
  }

  /** The value `has` asks for, or nothing. */
  function Flagged(has: bool, value: MetadataValue): Option<MetadataValue> {
    if has then Some(value) else None
  }

  /** Size of a `dimension` x `dimension` texel buffer. */
  function BufferBytes(dimension: nat, pixelSize: nat): nat {
    dimension * dimension * pixelSize
  }

  /** The texture of a property whose description selected `format`: none
      for an invalid live property, else `d` x `d` texels with `d` the texture
      dimension of `count` rows, whose buffer of `d * d * pixelSize` bytes
      exists exactly when allocation succeeds. */
  function PropertyTexture(isValid: bool, count: nat, format: EncodedPixelFormat, allocate: Allocator)
    : (t: Option<TableTexture>)
    ensures t.Some? <==> isValid
    ensures t.Some? ==>
              && t.value.dimension == TextureDimension(count)
              && t.value.format == format.format
              && (t.value.bufferBytes.Some? <==> allocate(TextureDimension(count), TextureDimension(count), format.format))
              && (t.value.bufferBytes.Some? ==>
                    t.value.bufferBytes.value == BufferBytes(TextureDimension(count), format.pixelSize))
  {
    if !isValid then None
    else
      var dimension := TextureDimension(count);
      var buffer := if allocate(dimension, dimension, format.format)
                    then Some(BufferBytes(dimension, format.pixelSize)) else None;
      Some(TableTexture(dimension, format.format, buffer))
  }

  /** Encode a live property against the description `d` of its name. It is
      emitted exactly when `d` passes every check, carrying the safe form of
      the description's name, its encoded type and the property's texture.
      Unless allocation failed, offset, scale, no-data and default are present
      exactly when the description flags them and are then the live
      property's values; after a failed allocation all four are absent. */
  function EncodeDescribedProperty(
    d: PropertyTablePropertyDescription, property: PropertyTableProperty, count: nat,
    converters: Converters, allocate: Allocator): (r: Option<EncodedPropertyTableProperty>)
    ensures r.Some? <==> Emits(converters, d, property)
    ensures r.Some? ==>
              var format := GetPixelFormat(d.encoding.encodedType, d.encoding.componentType);
              var e := r.value;
              && e.name == SafeName(d.name)
              && IsSafeName(e.name)
              && e.encodedType == d.encoding.encodedType
              && e.texture == PropertyTexture(property.isValid, count, format, allocate)
              && (!AllocationFailed(e) ==>
                    && e.offset == Flagged(d.details.hasOffset, property.offset)
                    && e.scale == Flagged(d.details.hasScale, property.scale)
                    && e.noData == Flagged(d.details.hasNoDataValue, property.noData)
                    && e.defaultValue == Flagged(d.details.hasDefaultValue, property.defaultValue))
              && (AllocationFailed(e) ==>
                    e.offset.None? && e.scale.None? && e.noData.None? && e.defaultValue.None?)
  {
    if d.encoding.conversion == NoConversion then None
    else if !IsValidPropertyTablePropertyDescription(d, property) then None
    else if d.encoding.conversion == Coerce && !converters.canCoerce(d) then None
    else if d.encoding.conversion == ParseColorFromString && !converters.canParseColor(d) then None
    else
      var format := GetPixelFormat(d.encoding.encodedType, d.encoding.componentType);
      if format.format == Unknown then None
      else
        var withTexture := EncodedPropertyTableProperty(
          SafeName(d.name), d.encoding.encodedType, PropertyTexture(property.isValid, count, format, allocate),
          None, None, None, None);
        if AllocationFailed(withTexture) then Some(withTexture)
        else
          Some(withTexture.(
            offset := Flagged(d.details.hasOffset, property.offset),
            scale := Flagged(d.details.hasScale, property.scale),
            noData := Flagged(d.details.hasNoDataValue, property.noData),
            defaultValue := Flagged(d.details.hasDefaultValue, property.defaultValue)))
  }

  /** Encode one live property of a table with `count` rows: nothing when no
      description has its name, else its encoding against the first such
      description. */
  function EncodePropertyTableProperty(
    descriptions: seq<PropertyTablePropertyDescription>, entry: NamedProperty, count: nat,
    converters: Converters, allocate: Allocator): (r: Option<EncodedPropertyTableProperty>)
    ensures FindPropertyDescription(descriptions, entry.key).None? ==> r.None?
    ensures FindPropertyDescription(descriptions, entry.key).Some? ==>
              r == EncodeDescribedProperty(FindPropertyDescription(descriptions, entry.key).value, entry.property,
                                           count, converters, allocate)
  {
    match FindPropertyDescription(descriptions, entry.key)
    case None => None
    case Some(d) => EncodeDescribedProperty(d, entry.property, count, converters, allocate)
  }

  /** The per-property encoder of a table, as a function of the live entry. */
  function PropertyEncoder(description: PropertyTableDescription, count: nat, converters: Converters, allocate: Allocator)
    : NamedProperty -> Option<EncodedPropertyTableProperty>
  {
    entry => EncodePropertyTableProperty(description.properties, entry, count, converters, allocate)
  }

  /** Phase one for a property table: the encoded properties, in the live
      table's iteration order; the table's name is left for the caller. */
  function EncodePropertyTableAnyThreadPart(
    description: PropertyTableDescription, table: PropertyTable, converters: Converters, allocate: Allocator)
    : (r: EncodedPropertyTable)
    ensures |r.properties| <= |table.properties|
    ensures forall k :: 0 <= k < |r.properties| ==> IsSafeName(r.properties[k].name)
  {
    var f := PropertyEncoder(description, table.count, converters, allocate);
    FilterMapLength(table.properties, f);
    FilterMapSelects(table.properties, f);
    EncodedPropertyTable("", FilterMap(table.properties, f))
  }

  /** The encoded properties are the encodings of the live properties at
      increasing positions, and a live property appears exactly when a
      same-named description exists and passes every check; in particular a
      property no description names never appears. */
  lemma EncodedPropertiesFollowLiveOrder(
    description: PropertyTableDescription, table: PropertyTable, converters: Converters, allocate: Allocator)
    ensures var out := EncodePropertyTableAnyThreadPart(description, table, converters, allocate).properties;
            var sel := SelectedIndices(table.properties, PropertyEncoder(description, table.count, converters, allocate));
            && |out| == |sel|
            && StrictlyIncreasing(sel)
            && (forall k :: 0 <= k < |sel| ==>
                  sel[k] < |table.properties|
                  && EncodePropertyTableProperty(description.properties, table.properties[sel[k]], table.count, converters, allocate)
                     == Some(out[k]))
            && (forall j :: 0 <= j < |table.properties| ==>
                  (j in sel <==>
                     && FindPropertyDescription(description.properties, table.properties[j].key).Some?
                     && Emits(converters,
                              FindPropertyDescription(description.properties, table.properties[j].key).value,
                              table.properties[j].property)))
  {
    var f := PropertyEncoder(description, table.count, converters, allocate);
    FilterMapSelects(table.properties, f);
  }

  /** Every encoded property's name is the safe form of a description's name. */
  lemma EncodedPropertiesAreDescribed(
    description: PropertyTableDescription, table: PropertyTable, converters: Converters, allocate: Allocator,
    e: EncodedPropertyTableProperty)
    requires e in EncodePropertyTableAnyThreadPart(description, table, converters, allocate).properties
    ensures exists d :: d in description.properties && e.name == SafeName(d.name)
  {
    var f := PropertyEncoder(description, table.count, converters, allocate);
    FilterMapElements(table.properties, f, e);
    var j :| 0 <= j < |table.properties| && f(table.properties[j]) == Some(e);
    var d := FindPropertyDescription(description.properties, table.properties[j].key).value;
    assert d in description.properties && e.name == SafeName(d.name);
  }
}
