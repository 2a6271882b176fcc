/** Property tables of a model, the descriptions that ask for their
    properties, and their encoded form. */
module MetadataTypes {
  import opened Optional
  import opened Sequences
  import opened CaseFolding
  import opened PixelFormats
  import FeatureIdTypes

  /** The type of a live metadata value. */
  datatype MetadataType =
    Invalid | ScalarValue | Vec2Value | Vec3Value | Vec4Value
    | Mat2Value | Mat3Value | Mat4Value | BooleanValue | EnumValue | StringValue

  /** The component type of a live metadata value. */
  datatype MetadataComponentType =
    NoComponentType | Int8 | Uint8Component | Int16 | Uint16 | Int32 | Uint32
    | Int64 | Uint64 | Float32 | Float64

  datatype MetadataValueType = MetadataValueType(
    valueType: MetadataType,
    componentType: MetadataComponentType,
    isArray: bool)

  /** A metadata value read from a property (offset, scale, no-data, default);
      only ever copied, never interpreted. */
  datatype MetadataValue = MetadataValue(components: seq<real>)

  /** A live property-table property; `isValid` is its status being Valid. */
  datatype PropertyTableProperty = PropertyTableProperty(
    isValid: bool,
    valueType: MetadataValueType,
    isNormalized: bool,
    offset: MetadataValue,
    scale: MetadataValue,
    noData: MetadataValue,
    defaultValue: MetadataValue)

  /** One entry of a live table's property map, in iteration order. */
  datatype NamedProperty = NamedProperty(key: string, property: PropertyTableProperty)

  /** A live property table: its name (possibly empty), its class name, its
      row count, and its properties in iteration order. */
  datatype PropertyTable = PropertyTable(
    name: string,
    className: string,
    count: nat,
    properties: seq<NamedProperty>)

  /** A live property texture; the encoder never looks inside it. */
  datatype PropertyTextureView = PropertyTextureView(name: string)

  datatype ModelMetadata = ModelMetadata(
    propertyTables: seq<PropertyTable>,
    propertyTextures: seq<PropertyTextureView>)

  /** How live values are turned into texel bytes. */
  datatype Conversion = NoConversion | Coerce | ParseColorFromString

  /** What the description expects of the live property. */
  datatype PropertyDetails = PropertyDetails(
    valueType: MetadataValueType,
    isNormalized: bool,
    hasOffset: bool,
    hasScale: bool,
    hasNoDataValue: bool,
    hasDefaultValue: bool)

  /** How the description wants the property encoded. */
  datatype EncodingDetails = EncodingDetails(
    encodedType: EncodedType,
    componentType: EncodedComponentType,
    conversion: Conversion)

  datatype PropertyTablePropertyDescription = PropertyTablePropertyDescription(
    name: string,
    details: PropertyDetails,
    encoding: EncodingDetails)

  datatype PropertyTableDescription = PropertyTableDescription(
    name: string,
    properties: seq<PropertyTablePropertyDescription>)

  datatype ModelMetadataDescription = ModelMetadataDescription(
    propertyTables: seq<PropertyTableDescription>)

  /** Whether the coerce and parse-color converters support a description
      (their `canEncode`); their code is outside this model. */
  datatype Converters = Converters(
    canCoerce: PropertyTablePropertyDescription -> bool,
    canParseColor: PropertyTablePropertyDescription -> bool)

  /** The texture of an encoded property: a `dimension` x `dimension` texture
      in `format`; `bufferBytes` is the size of its texel buffer, `None` when
      the texture could not be allocated. */
  datatype TableTexture = TableTexture(
    dimension: nat,
    format: PixelFormat,
    bufferBytes: Option<nat>)

  datatype EncodedPropertyTableProperty = EncodedPropertyTableProperty(
    name: string,
    encodedType: EncodedType,
    texture: Option<TableTexture>,
    offset: Option<MetadataValue>,
    scale: Option<MetadataValue>,
    noData: Option<MetadataValue>,
    defaultValue: Option<MetadataValue>)

  datatype EncodedPropertyTable = EncodedPropertyTable(
    name: string,
    properties: seq<EncodedPropertyTableProperty>)

  /** An encoded property texture: the shared textures of its properties. */
  datatype EncodedPropertyTexture = EncodedPropertyTexture(
    properties: seq<FeatureIdTypes.TexturePointer>)

  datatype EncodedModelMetadata = EncodedModelMetadata(
    propertyTables: seq<EncodedPropertyTable>,
    propertyTextures: seq<EncodedPropertyTexture>)

  /** The first property description whose name equals `name` ignoring case. */
  function FindPropertyDescription(descriptions: seq<PropertyTablePropertyDescription>, name: string)
    : (r: Option<PropertyTablePropertyDescription>)
    ensures r.Some? <==> exists k :: 0 <= k < |descriptions| && EqualsIgnoreCase(descriptions[k].name, name)
    ensures r.Some? ==> EqualsIgnoreCase(r.value.name, name) && r.value in descriptions
  {
    FindFirst(descriptions, (d: PropertyTablePropertyDescription) => EqualsIgnoreCase(d.name, name))
  }

  /** The first table description whose name equals `name` ignoring case. */
  function FindTableDescription(descriptions: seq<PropertyTableDescription>, name: string)
    : (r: Option<PropertyTableDescription>)
    ensures r.Some? <==> exists k :: 0 <= k < |descriptions| && EqualsIgnoreCase(descriptions[k].name, name)
    ensures r.Some? ==> EqualsIgnoreCase(r.value.name, name) && r.value in descriptions
  {
    FindFirst(descriptions, (d: PropertyTableDescription) => EqualsIgnoreCase(d.name, name))
  }
}
