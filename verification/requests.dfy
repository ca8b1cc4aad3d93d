/**
 The service requests the update handler can issue, and the builders that
 translate a resource model into each of them.
 */
module Requests {
  import opened Resource

  datatype UpdateNameRequest = UpdateNameRequest(instanceId: NullableString, hierarchyGroupId: NullableString, name: NullableString)

  datatype CreateRequest = CreateRequest(instanceId: NullableString, parentGroupId: NullableString, name: NullableString)

  datatype DeleteRequest = DeleteRequest(instanceId: NullableString, hierarchyGroupId: NullableString)

  datatype UntagRequest = UntagRequest(resourceArn: NullableString, tagKeys: set<string>)

  datatype TagRequest = TagRequest(resourceArn: NullableString, tags: map<string, string>)

  /** One remote call, carrying its request. */
  datatype Call =
    | UpdateGroupName(nameRequest: UpdateNameRequest)
    | CreateGroup(createRequest: CreateRequest)
    | DeleteGroup(deleteRequest: DeleteRequest)
    | UntagGroup(untagRequest: UntagRequest)
    | TagGroup(tagRequest: TagRequest)

  /** The operation a call invokes, without its arguments. */
  datatype Kind = RenameKind | CreateKind | DeleteKind | UntagKind | TagKind

  function KindOf(c: Call): Kind {
    match c
    case UpdateGroupName(_) => RenameKind
    case CreateGroup(_) => CreateKind
    case DeleteGroup(_) => DeleteKind
    case UntagGroup(_) => UntagKind
    case TagGroup(_) => TagKind
  }

  function KindsOf(calls: seq<Call>): seq<Kind> {
    seq(|calls|, i requires 0 <= i < |calls| => KindOf(calls[i]))
  }

  /** The rename request: the model's instance ARN, group ARN and name. */
  function ToUpdateNameRequest(model: ResourceModel): (r: UpdateNameRequest)
    ensures r.instanceId == model.instanceArn
    ensures r.hierarchyGroupId == model.userHierarchyGroupArn
    ensures r.name == model.name
  {
    UpdateNameRequest(model.instanceArn, model.userHierarchyGroupArn, model.name)
  }

  /** The create request: the model's instance ARN, parent ARN and name. */
  function ToCreateRequest(model: ResourceModel): (r: CreateRequest)
    ensures r.instanceId == model.instanceArn
    ensures r.parentGroupId == model.parentGroupArn
    ensures r.name == model.name
  {
    CreateRequest(model.instanceArn, model.parentGroupArn, model.name)
  }

  /** The delete request: the model's instance ARN and group ARN. */
  function ToDeleteRequest(model: ResourceModel): (r: DeleteRequest)
    ensures r.instanceId == model.instanceArn
    ensures r.hierarchyGroupId == model.userHierarchyGroupArn
  {
    DeleteRequest(model.instanceArn, model.userHierarchyGroupArn)
  }

  /**
   The rename request depends on exactly the instance, group and name of the
   model: no other field changes it, and a change to any of them does. Which
   field lands in which request field is stated by the builder's contract.
   */
  lemma UpdateNameRequestDependsOnExactly(m1: ResourceModel, m2: ResourceModel)
    ensures ToUpdateNameRequest(m1) == ToUpdateNameRequest(m2)
        <==> (m1.instanceArn == m2.instanceArn && m1.userHierarchyGroupArn == m2.userHierarchyGroupArn && m1.name == m2.name)
  {
  }

  /**
   The create request depends on exactly the instance, parent and name of the
   model; the group's own ARN plays no part, as the service assigns a new one.
   */
  lemma CreateRequestDependsOnExactly(m1: ResourceModel, m2: ResourceModel)
    ensures ToCreateRequest(m1) == ToCreateRequest(m2)
        <==> (m1.instanceArn == m2.instanceArn && m1.parentGroupArn == m2.parentGroupArn && m1.name == m2.name)
  {
  }

  /** The delete request depends on exactly the instance and the group; name and parent play no part. */
  lemma DeleteRequestDependsOnExactly(m1: ResourceModel, m2: ResourceModel)
    ensures ToDeleteRequest(m1) == ToDeleteRequest(m2)
        <==> (m1.instanceArn == m2.instanceArn && m1.userHierarchyGroupArn == m2.userHierarchyGroupArn)
  {
  }
}
