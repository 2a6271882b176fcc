/** Names under which encoded feature ID sets and property-table properties
    are looked up by descriptions and bound in materials. */
module Names {
  import opened Decimal
  import opened HlslNames
  import opened FeatureIdTypes
  import MetadataTypes

  const FeatureIdPrefix := "_FEATURE_ID_"
  const FeatureIdTexturePrefix := "_FEATURE_ID_TEXTURE_"
  const ImplicitFeatureIdName := "_IMPLICIT_FEATURE_ID"

  /** Prefix of every property-table property's material parameter name. */
  const MaterialPropertyTablePrefix := "PTABLE_"

  /** A resolved name and the texture counter after resolving it. */
  datatype ResolvedName = ResolvedName(name: string, counter: nat)

  /** The name of a feature ID set: its label when it has one; otherwise a name
      generated from its kind: `_FEATURE_ID_<attribute index>` for a valid
      attribute, `_FEATURE_ID_TEXTURE_<counter>` for a texture (the only case
      that advances the counter), `_IMPLICIT_FEATURE_ID` for an implicit set,
      and the empty name for anything else. */
  function NameForFeatureIdSet(idSet: FeatureIdSet, counter: nat): (r: ResolvedName)
    ensures r.counter == counter + (if IsUnlabeledTexture(idSet) then 1 else 0)
    ensures |idSet.labelText| > 0 ==> r.name == idSet.labelText
    ensures |idSet.labelText| == 0 ==>
              match idSet.kind
              case AttributeSet(a) =>
                r.name == (if a.isValid then FeatureIdPrefix + IntToString(a.attributeIndex) else "")
              case TextureSet(_) => r.name == FeatureIdTexturePrefix + IntToString(counter)
              case ImplicitSet => r.name == ImplicitFeatureIdName
              case NoKind => r.name == ""
  {
    if |idSet.labelText| > 0 then ResolvedName(idSet.labelText, counter)
    else if idSet.kind.AttributeSet? && idSet.kind.attribute.isValid then
      ResolvedName(FeatureIdPrefix + IntToString(idSet.kind.attribute.attributeIndex), counter)
    else if idSet.kind.TextureSet? then
      ResolvedName(FeatureIdTexturePrefix + IntToString(counter), counter + 1)
    else if idSet.kind.ImplicitSet? then
      ResolvedName(ImplicitFeatureIdName, counter)
    else
      ResolvedName("", counter)
  }

  /** Distinct counter values give distinct texture names. */
  lemma TextureNamesDistinct(c1: nat, c2: nat)
    requires c1 != c2
    ensures FeatureIdTexturePrefix + IntToString(c1) != FeatureIdTexturePrefix + IntToString(c2)
  {
    var p := FeatureIdTexturePrefix;
    if p + IntToString(c1) == p + IntToString(c2) {
      assert (p + IntToString(c1))[|p|..] == IntToString(c1);
      assert (p + IntToString(c2))[|p|..] == IntToString(c2);
      IntToStringInjective(c1, c2);
    }
  }

  /** The three generated families never produce the same name: after the
      common `_FEATURE_ID_` an attribute name continues with a digit or `-`,
      a texture name with `T`; the implicit name has another prefix. */
  lemma GeneratedNameFamiliesDisjoint(attributeIndex: int, counter: nat)
    ensures FeatureIdPrefix + IntToString(attributeIndex) != FeatureIdTexturePrefix + IntToString(counter)
    ensures FeatureIdPrefix + IntToString(attributeIndex) != ImplicitFeatureIdName
    ensures FeatureIdTexturePrefix + IntToString(counter) != ImplicitFeatureIdName
  {
    var a := FeatureIdPrefix + IntToString(attributeIndex);
    var t := FeatureIdTexturePrefix + IntToString(counter);
    assert a[12] == IntToString(attributeIndex)[0];
    assert t[12] == 'T';
    assert ImplicitFeatureIdName[1] == 'I';
    assert a[1] == 'F' && t[1] == 'F';
  }

  /** An unlabeled set's generated name, when there is one and the attribute
      index is not negative, is already a safe identifier, so sanitising
      leaves it as it is. */
  lemma GeneratedNamesAreSafe(idSet: FeatureIdSet, counter: nat)
    requires |idSet.labelText| == 0
    requires idSet.kind.AttributeSet? ==> idSet.kind.attribute.attributeIndex >= 0
    requires NameForFeatureIdSet(idSet, counter).name != ""
    ensures IsSafeName(NameForFeatureIdSet(idSet, counter).name)
    ensures SafeName(NameForFeatureIdSet(idSet, counter).name) == NameForFeatureIdSet(idSet, counter).name
  {
    var n := NameForFeatureIdSet(idSet, counter).name;
    GeneratedPrefixesSafe();
    if idSet.kind.AttributeSet? {
      AppendDigitsSafe(FeatureIdPrefix, IntToString(idSet.kind.attribute.attributeIndex));
    } else if idSet.kind.TextureSet? {
      AppendDigitsSafe(FeatureIdTexturePrefix, IntToString(counter));
    }
    SafeNameFixedPoints(n);
  }

  lemma GeneratedPrefixesSafe()
    ensures IsSafeName(FeatureIdPrefix)
    ensures IsSafeName(FeatureIdTexturePrefix)
    ensures IsSafeName(ImplicitFeatureIdName)
  {
    TexturePrefixSafe();
    assert forall k :: 0 <= k < |FeatureIdPrefix| ==> FeatureIdPrefix[k] == FeatureIdTexturePrefix[k];
    ImplicitNameSafe();
  }

  lemma TexturePrefixSafe()
    ensures IsSafeName(FeatureIdTexturePrefix)
  {
    assert forall k :: 0 <= k < |FeatureIdTexturePrefix| ==> FeatureIdTexturePrefix[k] in "_FEATUREIDX";
  }

  lemma ImplicitNameSafe()
    ensures IsSafeName(ImplicitFeatureIdName)
  {
    assert forall k :: 0 <= k < |ImplicitFeatureIdName| ==> ImplicitFeatureIdName[k] in "_IMPLICTFEATURED";
  }

  lemma AppendDigitsSafe(prefix: string, digits: string)
    requires IsSafeName(prefix)
    requires forall k :: 0 <= k < |digits| ==> IsDigit(digits[k])
    ensures IsSafeName(prefix + digits)
  {
    var n := prefix + digits;
    forall k | 1 <= k < |n| ensures IsTailChar(n[k]) {
      if k >= |prefix| {
        assert n[k] == digits[k - |prefix|];
      }
    }
  }

  /** The counter before position `j` of a pass over `sets`. */
  function CounterBefore(sets: seq<FeatureIdSet>, j: nat): nat
    requires j <= |sets|
  {
    UnlabeledTextureCount(sets[..j])
  }

  /** The name the pass resolves for the set at position `j`. */
  function NameInPass(sets: seq<FeatureIdSet>, j: nat): string
    requires j < |sets|
  {
    NameForFeatureIdSet(sets[j], CounterBefore(sets, j)).name
  }

  lemma {:induction false} CounterMonotone(sets: seq<FeatureIdSet>, i: nat, j: nat)
    requires i < j <= |sets|
    requires IsUnlabeledTexture(sets[i])
    ensures CounterBefore(sets, i) < CounterBefore(sets, j)
    decreases j
  {
    assert sets[..j][..j - 1] == sets[..j - 1];
    if i < j - 1 {
      CounterMonotone(sets, i, j - 1);
    } else {
      assert sets[..j][j - 1] == sets[i];
    }
  }

  /** Within one pass, unlabeled texture sets at different positions receive
      different names. */
  lemma PassTextureNamesDistinct(sets: seq<FeatureIdSet>, i: nat, j: nat)
    requires i < j < |sets|
    requires IsUnlabeledTexture(sets[i]) && IsUnlabeledTexture(sets[j])
    ensures NameInPass(sets, i) != NameInPass(sets, j)
  {
    CounterMonotone(sets, i, j);
    TextureNamesDistinct(CounterBefore(sets, i), CounterBefore(sets, j));
  }

  /** The name of a property table: its own name, or its class name when it has
      none. */
  function NameForPropertyTable(table: MetadataTypes.PropertyTable): (r: string)
    ensures |table.name| > 0 ==> r == table.name
    ensures |table.name| == 0 ==> r == table.className
  {
    if |table.name| == 0 then table.className else table.name
  }

  /** A named table's name does not depend on its class, and a table goes
      unnamed only when it has neither a name nor a class name. */
  lemma NameForPropertyTableChoice(a: MetadataTypes.PropertyTable, b: MetadataTypes.PropertyTable)
    ensures a.name == b.name && |a.name| > 0 ==> NameForPropertyTable(a) == NameForPropertyTable(b)
    ensures |NameForPropertyTable(a)| == 0 <==> |a.name| == 0 && |a.className| == 0
  {
  }

  /** The material parameter name of a property, `PTABLE_<table>_<property>`:
      the prefix, the table name, `_` and the property name can all be read
      back from it. */
  function MaterialNameForPropertyTableProperty(tableName: string, propertyName: string): (r: string)
    ensures |r| == |MaterialPropertyTablePrefix| + |tableName| + 1 + |propertyName|
    ensures r[..|MaterialPropertyTablePrefix|] == MaterialPropertyTablePrefix
    ensures r[|MaterialPropertyTablePrefix|..|MaterialPropertyTablePrefix| + |tableName|] == tableName
    ensures r[|MaterialPropertyTablePrefix| + |tableName|] == '_'
    ensures r[|MaterialPropertyTablePrefix| + |tableName| + 1..] == propertyName
  {
    MaterialPropertyTablePrefix + tableName + "_" + propertyName
  }

  /** Within one table, distinct properties get distinct material names. */
  lemma MaterialNamesDistinct(tableName: string, p1: string, p2: string)
    requires p1 != p2
    ensures MaterialNameForPropertyTableProperty(tableName, p1)
         != MaterialNameForPropertyTableProperty(tableName, p2)
  {
  }
}
