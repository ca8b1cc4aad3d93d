/**
 The resource model of a user hierarchy group: the snapshot the update handler
 receives twice, once as the previous state and once as the desired state.
 */
module Resource {
  import opened Wrappers

  /** A Java `String` field, which may be `null`. */
  type NullableString = Option<string>

  /** The four fields of the resource model that the update handler reads. */
  datatype ResourceModel = ResourceModel(
    userHierarchyGroupArn: NullableString,
    instanceArn: NullableString,
    name: NullableString,
    parentGroupArn: NullableString)

  /** A resource tag; two tags are equal when both key and value are equal. */
  datatype Tag = Tag(key: string, value: string)

  /** `StringUtils.isNotEmpty`: not null and at least one character long. */
  predicate IsNotEmpty(s: NullableString)
    ensures IsNotEmpty(s) <==> s != None && s != Some("")
  {
    s.Some? && |s.value| > 0
  }
}
