/**
 * Compound tags (NBT maps) as the core sees them: a map from field names to
 * values. The core itself only writes one field, the integer "version".
 */
module Tags {
  import opened Bits

  /** The value of one named field of a compound tag. */
  datatype Value =
    | ByteTag(b: int)
    | IntTag(i: Int32)
    | LongTag(l: int)
    | StringTag(s: string)
    | ListTag(items: seq<Value>)
    | CompoundTag(fields: map<string, Value>)

  /** A compound tag. Its immutable and mutable forms have the same
      content, so both are this one type. */
  type Tag = map<string, Value>

  const VersionKey: string := "version"

  /** `tag` with its "version" field set to the `int` `version`, as
      `putInt("version", version)` and `put("version", version)` do. */
  function WithVersion(tag: Tag, version: Int32): (r: Tag)
    ensures r.Keys == tag.Keys + {VersionKey}
    ensures r[VersionKey] == IntTag(version)
    ensures forall k :: k in tag && k != VersionKey ==> r[k] == tag[k]
  {
    tag[VersionKey := IntTag(version)]
  }
}
