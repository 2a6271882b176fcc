/** The worker-thread encoding of a model's metadata: every live property table
    whose resolved name a description asks for is encoded and stamped with that
    name. Property textures are iterated but produce nothing: their encoding is
    disabled, so the result never holds one. */
module ModelMetadataEncoder {
  import opened Optional
  import opened Sequences
  import opened PixelFormats
  import opened MetadataTypes
  import opened Names
  import opened PropertyTableEncoder

  /** The per-table encoder: a table named by a description is encoded against
      the first such description and given the resolved name. */
  function TableEncoder(description: ModelMetadataDescription, converters: Converters, allocate: Allocator)
    : PropertyTable -> Option<EncodedPropertyTable>
  {
    table =>
      var name := NameForPropertyTable(table);
      match FindTableDescription(description.propertyTables, name)
      case None => None
      case Some(d) => Some(EncodePropertyTableAnyThreadPart(d, table, converters, allocate).(name := name))
  }

  /** Phase one for a model: at most one encoded table per live table, each
      named after a table description, and no property textures. */
  function EncodeModelMetadataAnyThreadPart(
    description: ModelMetadataDescription, metadata: ModelMetadata, converters: Converters, allocate: Allocator)
    : (r: EncodedModelMetadata)
    ensures r.propertyTextures == []
    ensures |r.propertyTables| <= |metadata.propertyTables|
    ensures forall k :: 0 <= k < |r.propertyTables| ==>
              FindTableDescription(description.propertyTables, r.propertyTables[k].name).Some?
  {
    var f := TableEncoder(description, converters, allocate);
    FilterMapLength(metadata.propertyTables, f);
    FilterMapSelects(metadata.propertyTables, f);
    EncodedModelMetadata(FilterMap(metadata.propertyTables, f), [])
  }

  /** The encoded tables come from the live tables at increasing positions; the
      k-th carries its live table's resolved name and the properties encoded
      against the first description of that name; a live table is encoded
      exactly when some description has its resolved name. */
  lemma EncodedTablesFollowLiveOrder(
    description: ModelMetadataDescription, metadata: ModelMetadata, converters: Converters, allocate: Allocator)
    ensures var out := EncodeModelMetadataAnyThreadPart(description, metadata, converters, allocate).propertyTables;
            var sel := SelectedIndices(metadata.propertyTables, TableEncoder(description, converters, allocate));
            && |out| == |sel|
            && StrictlyIncreasing(sel)
            && (forall k :: 0 <= k < |sel| ==>
                  && sel[k] < |metadata.propertyTables|
                  && var live := metadata.propertyTables[sel[k]];
                     var d := FindTableDescription(description.propertyTables, NameForPropertyTable(live));
                     && d.Some?
                     && out[k].name == NameForPropertyTable(live)
                     && out[k].properties == EncodePropertyTableAnyThreadPart(d.value, live, converters, allocate).properties)
            && (forall j :: 0 <= j < |metadata.propertyTables| ==>
                  (j in sel <==>
                     FindTableDescription(description.propertyTables, NameForPropertyTable(metadata.propertyTables[j])).Some?))
  {
    FilterMapSelects(metadata.propertyTables, TableEncoder(description, converters, allocate));
  }
}
