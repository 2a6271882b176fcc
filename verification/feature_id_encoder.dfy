/** The worker-thread pass over a primitive's feature ID sets: resolve each
    set's name, keep it only when a description asks for that name, and encode
    it by kind. Feature ID textures that read the same source image share one
    texture through a per-pass image cache. */
module FeatureIdEncoder {
  import opened Optional
  import opened PixelFormats
  import opened FeatureIdTypes
  import opened Names

  /** What the image cache remembers for an image: a weak reference to the
      texture created for it, or one whose texture has already been dropped. */
  datatype CacheEntry = Alive(id: nat) | Expired

  type ImageCache = map<Image, CacheEntry>

  /** Feature ID textures are always created as 8-bit RGBA unsigned. */
  predicate CanAllocateImage(allocate: Allocator, image: Image) {
    allocate(image.width, image.height, R8G8B8A8Uint)
  }

  /** What encoding one set contributes before the pass fills in name, index,
      property table name and null feature ID. */
  datatype EncodedSource = EncodedSource(attribute: Option<int>, texture: Option<EncodedFeatureIdTexture>)

  /** A valid attribute is encoded as its vertex-attribute index and nothing
      else; an invalid one is skipped. */
  function EncodeFeatureIdAttribute(attribute: FeatureIdAttribute): (r: Option<EncodedSource>)
    ensures r.Some? <==> attribute.isValid
    ensures r.Some? ==> r.value.attribute == Some(attribute.attributeIndex) && r.value.texture.None?
  {
    if attribute.isValid then Some(EncodedSource(Some(attribute.attributeIndex), None)) else None
  }

  /** The result of encoding one feature ID texture: the encoding (if any) and
      the image cache and texture count after it. */
  datatype TextureStep = TextureStep(encoded: Option<EncodedFeatureIdTexture>, cache: ImageCache, nextId: nat)

  /** Promoting a weak reference: the texture if it is still alive, else null. */
  function Pin(entry: CacheEntry): TexturePointer {
    match entry
    case Alive(id) => Shared(id)
    case Expired => Null
  }

  /** Encoding a feature ID texture exactly as the engine does. An invalid
      texture is skipped. A cache hit shares whatever the weak reference pins.
      A miss creates texture number `nextId`, registers it, and is skipped when
      the texture cannot be allocated; that texture then dies with the skipped
      result, so its cache entry is left expired. */
  function EncodeFeatureIdTextureAsWritten(
    texture: FeatureIdTexture, cache: ImageCache, nextId: nat, allocate: Allocator): (r: TextureStep)
    ensures texture.isValid && texture.image in cache ==>
              r.encoded == Some(EncodedFeatureIdTexture(texture.channels, texture.texCoordSetIndex, Pin(cache[texture.image])))
  {
    if !texture.isValid then TextureStep(None, cache, nextId)
    else if texture.image in cache then
      TextureStep(
        Some(EncodedFeatureIdTexture(texture.channels, texture.texCoordSetIndex, Pin(cache[texture.image]))),
        cache, nextId)
    else if CanAllocateImage(allocate, texture.image) then
      TextureStep(
        Some(EncodedFeatureIdTexture(texture.channels, texture.texCoordSetIndex, Shared(nextId))),
        cache[texture.image := Alive(nextId)], nextId + 1)
    else
      TextureStep(None, cache[texture.image := Expired], nextId + 1)
  }

  /** As written, once an image's texture could not be allocated, the next
      valid texture reading the same image is encoded with a null texture. */
  lemma ExpiredHitYieldsNullTexture(texture: FeatureIdTexture, allocate: Allocator)
    requires texture.isValid
    requires !CanAllocateImage(allocate, texture.image)
    ensures var first := EncodeFeatureIdTextureAsWritten(texture, map[], 0, allocate);
            var second := EncodeFeatureIdTextureAsWritten(texture, first.cache, first.nextId, allocate);
            && first.encoded.None?
            && second.encoded.Some?
            && second.encoded.value.pointer == Null
  {
  }

  /** Encoding a feature ID texture with the expired-hit case corrected: a hit
      on an expired entry is skipped like the set whose allocation failed.
      Existing cache entries never change; only a valid texture with a new
      image adds an entry (alive exactly when allocation succeeds) and uses up
      a texture number; an encoding exists exactly when the image's entry is
      alive, and it points at that entry's texture. */
  function EncodeFeatureIdTexture(
    texture: FeatureIdTexture, cache: ImageCache, nextId: nat, allocate: Allocator): (r: TextureStep)
    ensures forall image :: image in cache ==> image in r.cache && r.cache[image] == cache[image]
    ensures forall image :: image in r.cache && image !in cache ==>
              && texture.isValid
              && image == texture.image
              && r.cache[image] == (if CanAllocateImage(allocate, image) then Alive(nextId) else Expired)
    ensures texture.isValid ==> texture.image in r.cache
    ensures r.nextId == nextId + (if texture.isValid && texture.image !in cache then 1 else 0)
    ensures r.encoded.Some? <==> texture.isValid && r.cache[texture.image].Alive?
    ensures r.encoded.Some? ==>
              r.encoded.value == EncodedFeatureIdTexture(
                texture.channels, texture.texCoordSetIndex, Shared(r.cache[texture.image].id))
  {
    if !texture.isValid then TextureStep(None, cache, nextId)
    else if texture.image in cache then
      match cache[texture.image]
      case Alive(id) =>
        TextureStep(Some(EncodedFeatureIdTexture(texture.channels, texture.texCoordSetIndex, Shared(id))), cache, nextId)
      case Expired => TextureStep(None, cache, nextId)
    else if CanAllocateImage(allocate, texture.image) then
      TextureStep(
        Some(EncodedFeatureIdTexture(texture.channels, texture.texCoordSetIndex, Shared(nextId))),
        cache[texture.image := Alive(nextId)], nextId + 1)
    else
      TextureStep(None, cache[texture.image := Expired], nextId + 1)
  }

  /** The corrected step never hands out a null texture. */
  lemma CorrectedStepNeverNull(texture: FeatureIdTexture, cache: ImageCache, nextId: nat, allocate: Allocator)
    ensures var r := EncodeFeatureIdTexture(texture, cache, nextId, allocate);
            r.encoded.Some? ==> r.encoded.value.pointer != Null
  {
  }

  // ---------------------------------------------------------------------------
  // The pass

  /** State of the pass: texture counter for names, image cache, number of
      textures created, and the sets encoded so far. */
  datatype FeaturePass = FeaturePass(
    counter: nat,
    cache: ImageCache,
    nextId: nat,
    encoded: seq<EncodedFeatureIdSet>)

  /** Handle the live set at position `index`. */
  function StepFeatureIdSet(
    p: FeaturePass, descriptions: seq<FeatureIdSetDescription>, idSet: FeatureIdSet,
    index: nat, allocate: Allocator): FeaturePass
  {
    var resolved := NameForFeatureIdSet(idSet, p.counter);
    var description := FindFeatureIdSetDescription(descriptions, resolved.name);
    if description.None? then p.(counter := resolved.counter)
    else
      var q := p.(counter := resolved.counter);
      var step := EncodeSourceOf(idSet.kind, q.cache, q.nextId, allocate);
      var q := q.(cache := step.cache, nextId := step.nextId);
      match step.source
      case None => q
      case Some(s) =>
        q.(encoded := q.encoded + [EncodedFeatureIdSet(
          resolved.name, index, description.value.propertyTableName, idSet.nullFeatureId,
          s.attribute, s.texture)])
  }

  datatype SourceStep = SourceStep(source: Option<EncodedSource>, cache: ImageCache, nextId: nat)

  /** Dispatch on the kind of a set: attributes and implicit sets leave the
      cache alone, textures go through the cache, untyped sets are skipped. */
  function EncodeSourceOf(kind: FeatureIdSetKind, cache: ImageCache, nextId: nat, allocate: Allocator): SourceStep
  {
    match kind
    case AttributeSet(attribute) => SourceStep(EncodeFeatureIdAttribute(attribute), cache, nextId)
    case TextureSet(texture) =>
      var step := EncodeFeatureIdTexture(texture, cache, nextId, allocate);
      SourceStep(if step.encoded.Some? then Some(EncodedSource(None, step.encoded)) else None, step.cache, step.nextId)
    case ImplicitSet => SourceStep(Some(EncodedSource(None, None)), cache, nextId)
    case NoKind => SourceStep(None, cache, nextId)
  }

  /** The pass over the live sets, in order. */
  function RunPass(descriptions: seq<FeatureIdSetDescription>, sets: seq<FeatureIdSet>, allocate: Allocator)
    : FeaturePass
    decreases |sets|
  {
    if |sets| == 0 then FeaturePass(0, map[], 0, [])
    else
      StepFeatureIdSet(
        RunPass(descriptions, sets[..|sets| - 1], allocate),
        descriptions, sets[|sets| - 1], |sets| - 1, allocate)
  }

  // ---------------------------------------------------------------------------
  // What the pass promises

  /** Whether a set of this kind yields an encoding on its own terms. */
  predicate Encodable(kind: FeatureIdSetKind, allocate: Allocator) {
    match kind
    case NoKind => false
    case AttributeSet(attribute) => attribute.isValid
    case TextureSet(texture) => texture.isValid && CanAllocateImage(allocate, texture.image)
    case ImplicitSet => true
  }

  /** The live set at position `j` is asked for by a description whose name
      equals, ignoring ASCII case, the name the pass gives it, and is
      encodable. */
  predicate IsSelected(
    descriptions: seq<FeatureIdSetDescription>, sets: seq<FeatureIdSet>, j: nat, allocate: Allocator)
    requires j < |sets|
  {
    FindFeatureIdSetDescription(descriptions, NameInPass(sets, j)).Some?
    && Encodable(sets[j].kind, allocate)
  }

  /** The encoding's shape matches the live set's kind. */
  predicate ShapeMatches(e: EncodedFeatureIdSet, kind: FeatureIdSetKind) {
    match kind
    case NoKind => false
    case AttributeSet(attribute) =>
      attribute.isValid && e.attribute == Some(attribute.attributeIndex) && e.texture.None?
    case TextureSet(texture) =>
      && texture.isValid
      && e.attribute.None?
      && e.texture.Some?
      && e.texture.value.channels == texture.channels
      && e.texture.value.texCoordSetIndex == texture.texCoordSetIndex
      && e.texture.value.pointer.Shared?
    case ImplicitSet => e.attribute.None? && e.texture.None?
  }

  /** `e` is the encoding of the live set it names by index. */
  predicate Reflects(e: EncodedFeatureIdSet, descriptions: seq<FeatureIdSetDescription>, sets: seq<FeatureIdSet>) {
    && e.index < |sets|
    && var name := NameInPass(sets, e.index);
       var description := FindFeatureIdSetDescription(descriptions, name);
       && e.name == name
       && description.Some?
       && e.propertyTableName == description.value.propertyTableName
       && e.nullFeatureId == sets[e.index].nullFeatureId
       && ShapeMatches(e, sets[e.index].kind)
  }

  /** Cache invariant: an entry is alive exactly when its image's texture can
      be allocated, live texture numbers are below `nextId`, and no two images
      share a live texture. */
  predicate CacheConsistent(cache: ImageCache, nextId: nat, allocate: Allocator) {
    && (forall image :: image in cache ==> (cache[image].Alive? <==> CanAllocateImage(allocate, image)))
    && (forall image :: image in cache && cache[image].Alive? ==> cache[image].id < nextId)
    && (forall a, b :: a in cache && b in cache && cache[a].Alive? && cache[b].Alive? && cache[a].id == cache[b].id ==> a == b)
  }

  /** Every encoded texture points at its image's live cache entry. */
  predicate PointsIntoCache(encoded: seq<EncodedFeatureIdSet>, sets: seq<FeatureIdSet>, cache: ImageCache) {
    forall k :: 0 <= k < |encoded| && encoded[k].texture.Some? ==>
      && encoded[k].index < |sets|
      && sets[encoded[k].index].kind.TextureSet?
      && var image := sets[encoded[k].index].kind.texture.image;
         && image in cache
         && cache[image].Alive?
         && encoded[k].texture.value.pointer == Shared(cache[image].id)
  }

  lemma {:induction false} PassCounter(descriptions: seq<FeatureIdSetDescription>, sets: seq<FeatureIdSet>, allocate: Allocator)
    ensures RunPass(descriptions, sets, allocate).counter == UnlabeledTextureCount(sets)
    decreases |sets|
  {
    if |sets| > 0 {
      PassCounter(descriptions, sets[..|sets| - 1], allocate);
    }
  }

  lemma {:induction false} PassCache(descriptions: seq<FeatureIdSetDescription>, sets: seq<FeatureIdSet>, allocate: Allocator)
    ensures var p := RunPass(descriptions, sets, allocate);
            CacheConsistent(p.cache, p.nextId, allocate)
    decreases |sets|
  {
    if |sets| > 0 {
      var n := |sets| - 1;
      PassCache(descriptions, sets[..n], allocate);
      var q := RunPass(descriptions, sets[..n], allocate);
      SourceStepConsistent(sets[n].kind, q.cache, q.nextId, allocate);
    }
  }

  /** Encoding a set's source keeps the cache consistent. */
  lemma SourceStepConsistent(kind: FeatureIdSetKind, cache: ImageCache, nextId: nat, allocate: Allocator)
    requires CacheConsistent(cache, nextId, allocate)
    ensures var step := EncodeSourceOf(kind, cache, nextId, allocate);
            CacheConsistent(step.cache, step.nextId, allocate)
  {
    if kind.TextureSet? {
      var r := EncodeFeatureIdTexture(kind.texture, cache, nextId, allocate);
      var image := kind.texture.image;
      if kind.texture.isValid && image !in cache {
        assert r.cache == cache[image := r.cache[image]];
        assert forall a :: a in cache && cache[a].Alive? ==> cache[a].id < nextId;
      }
    }
  }

  /** Names resolved over a prefix agree with names resolved over the whole. */
  lemma NameInPrefix(sets: seq<FeatureIdSet>, n: nat, j: nat)
    requires j < n <= |sets|
    ensures NameInPass(sets[..n], j) == NameInPass(sets, j)
  {
    assert sets[..n][..j] == sets[..j];
  }

  /** One step of the pass: whatever held of the encodings before still holds,
      and an appended encoding reflects the set at the new position. */
  lemma {:induction false} PassShape(descriptions: seq<FeatureIdSetDescription>, sets: seq<FeatureIdSet>, allocate: Allocator)
    ensures var p := RunPass(descriptions, sets, allocate);
            && (forall k :: 0 <= k < |p.encoded| ==> Reflects(p.encoded[k], descriptions, sets))
            && (forall k1, k2 :: 0 <= k1 < k2 < |p.encoded| ==> p.encoded[k1].index < p.encoded[k2].index)
            && PointsIntoCache(p.encoded, sets, p.cache)
    decreases |sets|
  {
    if |sets| > 0 {
      var n := |sets| - 1;
      var prefix := sets[..n];
      PassShape(descriptions, prefix, allocate);
      PassCounter(descriptions, prefix, allocate);
      var q := RunPass(descriptions, prefix, allocate);
      var p := RunPass(descriptions, sets, allocate);
      assert sets[..n] == prefix;
      assert q.counter == CounterBefore(sets, n);
      forall k | 0 <= k < |q.encoded|
        ensures Reflects(q.encoded[k], descriptions, sets)
        ensures q.encoded[k].index < n
      {
        NameInPrefix(sets, n, q.encoded[k].index);
      }
      assert p.encoded[..|q.encoded|] == q.encoded;
      assert |p.encoded| <= |q.encoded| + 1;
      StepShape(q, descriptions, sets, allocate);
    }
  }

  lemma StepShape(q: FeaturePass, descriptions: seq<FeatureIdSetDescription>, sets: seq<FeatureIdSet>, allocate: Allocator)
    requires |sets| > 0
    requires q.counter == CounterBefore(sets, |sets| - 1)
    requires forall k :: 0 <= k < |q.encoded| ==> Reflects(q.encoded[k], descriptions, sets) && q.encoded[k].index < |sets| - 1
    requires forall k1, k2 :: 0 <= k1 < k2 < |q.encoded| ==> q.encoded[k1].index < q.encoded[k2].index
    requires PointsIntoCache(q.encoded, sets, q.cache)
    ensures var p := StepFeatureIdSet(q, descriptions, sets[|sets| - 1], |sets| - 1, allocate);
            && (forall k :: 0 <= k < |p.encoded| ==> Reflects(p.encoded[k], descriptions, sets))
            && (forall k1, k2 :: 0 <= k1 < k2 < |p.encoded| ==> p.encoded[k1].index < p.encoded[k2].index)
            && PointsIntoCache(p.encoded, sets, p.cache)
  {
    var n := |sets| - 1;
    StepOutcome(q, descriptions, sets, allocate);
    var p := StepFeatureIdSet(q, descriptions, sets[n], n, allocate);
    assert PointsIntoCache(q.encoded, sets, p.cache);
    if p.encoded != q.encoded {
      assert forall k :: 0 <= k < |q.encoded| ==> p.encoded[k] == q.encoded[k];
    }
  }

  /** One step either leaves the encodings alone or appends one encoding that
      reflects the set at the new position and points into the cache; cache
      entries that existed are kept. */
  lemma StepOutcome(q: FeaturePass, descriptions: seq<FeatureIdSetDescription>, sets: seq<FeatureIdSet>, allocate: Allocator)
    requires |sets| > 0
    requires q.counter == CounterBefore(sets, |sets| - 1)
    ensures var n := |sets| - 1;
            var p := StepFeatureIdSet(q, descriptions, sets[n], n, allocate);
            && (forall image :: image in q.cache ==> image in p.cache && p.cache[image] == q.cache[image])
            && (p.encoded == q.encoded
                || (&& |p.encoded| == |q.encoded| + 1
                    && p.encoded[..|q.encoded|] == q.encoded
                    && p.encoded[|q.encoded|].index == n
                    && Reflects(p.encoded[|q.encoded|], descriptions, sets)
                    && PointsIntoCache([p.encoded[|q.encoded|]], sets, p.cache)))
  {
    var n := |sets| - 1;
    var idSet := sets[n];
    var resolved := NameForFeatureIdSet(idSet, q.counter);
    var description := FindFeatureIdSetDescription(descriptions, resolved.name);
    var p := StepFeatureIdSet(q, descriptions, idSet, n, allocate);
    if description.Some? {
      var step := EncodeSourceOf(idSet.kind, q.cache, q.nextId, allocate);
      SourceStepKeepsCache(idSet.kind, q.cache, q.nextId, allocate);
      if step.source.Some? {
        assert resolved.name == NameInPass(sets, n);
        var e := EncodedFeatureIdSet(
          resolved.name, n, description.value.propertyTableName, idSet.nullFeatureId,
          step.source.value.attribute, step.source.value.texture);
        assert p.encoded == q.encoded + [e];
        SourceStepShape(idSet.kind, q.cache, q.nextId, allocate, e);
        assert Reflects(e, descriptions, sets);
      }
    }
  }

  /** Encoding a set's source never changes an existing cache entry. */
  lemma SourceStepKeepsCache(kind: FeatureIdSetKind, cache: ImageCache, nextId: nat, allocate: Allocator)
    ensures var step := EncodeSourceOf(kind, cache, nextId, allocate);
            forall image :: image in cache ==> image in step.cache && step.cache[image] == cache[image]
  {
  }

  /** An encoding assembled from a set's source has the shape of the set's
      kind, and its texture, if any, is its image's live cache entry. */
  lemma SourceStepShape(kind: FeatureIdSetKind, cache: ImageCache, nextId: nat, allocate: Allocator, e: EncodedFeatureIdSet)
    requires EncodeSourceOf(kind, cache, nextId, allocate).source.Some?
    requires e.attribute == EncodeSourceOf(kind, cache, nextId, allocate).source.value.attribute
    requires e.texture == EncodeSourceOf(kind, cache, nextId, allocate).source.value.texture
    ensures ShapeMatches(e, kind)
    ensures e.texture.Some? ==>
              && kind.TextureSet?
              && var step := EncodeSourceOf(kind, cache, nextId, allocate);
                 && kind.texture.image in step.cache
                 && step.cache[kind.texture.image].Alive?
                 && e.texture.value.pointer == Shared(step.cache[kind.texture.image].id)
  {
  }

  /** Whether the set at a position is selected does not depend on the sets
      that come after it. */
  lemma SelectedInPrefix(
    descriptions: seq<FeatureIdSetDescription>, sets: seq<FeatureIdSet>, n: nat, j: nat, allocate: Allocator)
    requires j < n <= |sets|
    ensures IsSelected(descriptions, sets[..n], j, allocate) == IsSelected(descriptions, sets, j, allocate)
  {
    NameInPrefix(sets, n, j);
  }

  /** With a consistent cache, a set's source is encoded exactly when the set
      is encodable on its own terms. */
  lemma SourceStepSelects(kind: FeatureIdSetKind, cache: ImageCache, nextId: nat, allocate: Allocator)
    requires CacheConsistent(cache, nextId, allocate)
    ensures EncodeSourceOf(kind, cache, nextId, allocate).source.Some? <==> Encodable(kind, allocate)
  {
    if kind.TextureSet? && kind.texture.isValid && kind.texture.image in cache {
      assert cache[kind.texture.image].Alive? <==> CanAllocateImage(allocate, kind.texture.image);
    }
  }

  /** One step appends an encoding exactly when the set at the new position is
      selected. */
  lemma StepSelects(q: FeaturePass, descriptions: seq<FeatureIdSetDescription>, sets: seq<FeatureIdSet>, allocate: Allocator)
    requires |sets| > 0
    requires q.counter == CounterBefore(sets, |sets| - 1)
    requires CacheConsistent(q.cache, q.nextId, allocate)
    ensures var n := |sets| - 1;
            var p := StepFeatureIdSet(q, descriptions, sets[n], n, allocate);
            |p.encoded| == |q.encoded| + (if IsSelected(descriptions, sets, n, allocate) then 1 else 0)
  {
    var n := |sets| - 1;
    var resolved := NameForFeatureIdSet(sets[n], q.counter);
    assert resolved.name == NameInPass(sets, n);
    SourceStepSelects(sets[n].kind, q.cache, q.nextId, allocate);
  }

  /** Every encoding of a pass names a position of the pass. */
  lemma PassIndicesBelow(descriptions: seq<FeatureIdSetDescription>, sets: seq<FeatureIdSet>, allocate: Allocator)
    ensures var e := RunPass(descriptions, sets, allocate).encoded;
            forall k :: 0 <= k < |e| ==> e[k].index < |sets|
  {
    PassShape(descriptions, sets, allocate);
  }

  /** A live set is encoded exactly when it is selected. */
  lemma {:induction false} PassComplete(descriptions: seq<FeatureIdSetDescription>, sets: seq<FeatureIdSet>, allocate: Allocator)
    ensures var p := RunPass(descriptions, sets, allocate);
            forall j :: 0 <= j < |sets| ==>
              ((exists k :: 0 <= k < |p.encoded| && p.encoded[k].index == j) <==> IsSelected(descriptions, sets, j, allocate))
    decreases |sets|
  {
    if |sets| > 0 {
      var n := |sets| - 1;
      var prefix := sets[..n];
      PassComplete(descriptions, prefix, allocate);
      PassIndicesBelow(descriptions, prefix, allocate);
      PassCounter(descriptions, prefix, allocate);
      PassCache(descriptions, prefix, allocate);
      var q := RunPass(descriptions, prefix, allocate);
      var p := RunPass(descriptions, sets, allocate);
      assert p == StepFeatureIdSet(q, descriptions, sets[n], n, allocate);
      assert q.counter == CounterBefore(sets, n);
      StepOutcome(q, descriptions, sets, allocate);
      StepSelects(q, descriptions, sets, allocate);
      assert forall k :: 0 <= k < |q.encoded| ==> p.encoded[k] == q.encoded[k];
      forall j | 0 <= j < |sets|
        ensures (exists k :: 0 <= k < |p.encoded| && p.encoded[k].index == j) <==> IsSelected(descriptions, sets, j, allocate)
      {
        if j == n {
          if IsSelected(descriptions, sets, n, allocate) {
            assert p.encoded[|q.encoded|].index == n;
          }
        } else {
          SelectedInPrefix(descriptions, sets, n, j, allocate);
          if exists k :: 0 <= k < |p.encoded| && p.encoded[k].index == j {
            var k :| 0 <= k < |p.encoded| && p.encoded[k].index == j;
            assert k < |q.encoded|;
          }
          if IsSelected(descriptions, sets, j, allocate) {
            var k :| 0 <= k < |q.encoded| && q.encoded[k].index == j;
            assert p.encoded[k].index == j;
          }
        }
      }
      assert p == RunPass(descriptions, sets, allocate);
      assert forall j :: 0 <= j < |sets| ==>
        ((exists k :: 0 <= k < |p.encoded| && p.encoded[k].index == j) <==> IsSelected(descriptions, sets, j, allocate));
    }
  }

  /** The live sets behind two encodings are textures reading the same image. */
  predicate SameImage(sets: seq<FeatureIdSet>, e1: EncodedFeatureIdSet, e2: EncodedFeatureIdSet) {
    && e1.index < |sets| && e2.index < |sets|
    && sets[e1.index].kind.TextureSet? && sets[e2.index].kind.TextureSet?
    && sets[e1.index].kind.texture.image == sets[e2.index].kind.texture.image
  }

  /** Two encoded textures share a texture exactly when their live sets read
      the same source image. */
  lemma PassSharesTextures(descriptions: seq<FeatureIdSetDescription>, sets: seq<FeatureIdSet>, allocate: Allocator)
    ensures var e := RunPass(descriptions, sets, allocate).encoded;
            forall k1, k2 :: 0 <= k1 < |e| && 0 <= k2 < |e| && e[k1].texture.Some? && e[k2].texture.Some? ==>
              && e[k1].index < |sets| && e[k2].index < |sets|
              && sets[e[k1].index].kind.TextureSet? && sets[e[k2].index].kind.TextureSet?
              && (e[k1].texture.value.pointer == e[k2].texture.value.pointer <==> SameImage(sets, e[k1], e[k2]))
  {
    PassShape(descriptions, sets, allocate);
    PassCache(descriptions, sets, allocate);
  }

  /** Phase one for a primitive's features: the encoded sets, in live order,
      each reflecting the live set at its `index` (name resolved as in the
      pass, asked for by a description whose property table name it carries,
      null feature ID copied, shape matching the kind); a live set appears
      exactly when it is selected; and two encoded textures share a texture
      exactly when they read the same image. */
  function EncodePrimitiveFeaturesAnyThreadPart(
    descriptions: seq<FeatureIdSetDescription>, sets: seq<FeatureIdSet>, allocate: Allocator)
    : (r: seq<EncodedFeatureIdSet>)
    ensures forall k :: 0 <= k < |r| ==> Reflects(r[k], descriptions, sets)
    ensures forall k1, k2 :: 0 <= k1 < k2 < |r| ==> r[k1].index < r[k2].index
    ensures forall j :: 0 <= j < |sets| ==>
              ((exists k :: 0 <= k < |r| && r[k].index == j) <==> IsSelected(descriptions, sets, j, allocate))
    ensures forall k1, k2 :: 0 <= k1 < |r| && 0 <= k2 < |r| && r[k1].texture.Some? && r[k2].texture.Some? ==>
              (r[k1].texture.value.pointer == r[k2].texture.value.pointer <==> SameImage(sets, r[k1], r[k2]))
  {
    PassShape(descriptions, sets, allocate);
    PassComplete(descriptions, sets, allocate);
    PassSharesTextures(descriptions, sets, allocate);
    RunPass(descriptions, sets, allocate).encoded
  }
}
