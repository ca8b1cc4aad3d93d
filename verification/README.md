# User hierarchy group update handler, in Dafny

This project models the update handler of the CloudFormation resource type for
Amazon Connect user hierarchy groups. The handler receives the previous and the
desired resource model of a group. It decides which Connect API calls to make,
and in what order:

- It rejects the update with `InvalidRequest` when a non-empty desired
  `InstanceArn` differs from the previous one.
- It calls `UpdateUserHierarchyGroupName` when the name changed.
- When the parent group changed, it calls `CreateUserHierarchyGroup` under the
  new parent. If that succeeds, it calls `DeleteUserHierarchyGroup`.
- It reports success with the desired model.

The handler also holds tag-reconciliation helpers: the two set differences, the
untag and tag request builders, and the untag and tag steps. The handler's
chain does not call them.

## Layout

- `wrappers.dfy` (`Wrappers`): `Option` (a nullable Java reference) and `Result`.
- `resource.dfy` (`Resource`): the resource model with nullable string fields,
  `Tag`, and `IsNotEmpty` (`StringUtils.isNotEmpty`).
- `requests.dfy` (`Requests`): the five service requests, the `Call` datatype and
  the three request builders.
- `progress.dfy` (`Progress`): progress events, the `then` combinator and
  `Invoke`, one service call through the proxy.
- `tags.dfy` (`Tags`): the tag helpers.
- `update_handler.dfy` (`UpdateHandler`): the handler, written in two ways.
  - `HandleRequest` follows the chain of `then` steps as written.
  - `Plan` computes the calls up front. `Execute` then folds the service's
    replies over the plan and stops at the first failure.
  - `PlanMatchesChain` proves that the two agree for every possible service
    behaviour. `Run` and `ExecuteCalls` are the same executor written as a loop.
  - `Execute` and `Reconcile` carry no contract of their own. The lemma
    `ExecuteStopsAtFirstFailure` is `Execute`'s contract, and
    `PlanMatchesChain` states what `Reconcile` computes: exactly what
    `HandleRequest` computes.

The service is a parameter `respond: Call -> Reply`. For each call it answers
`Ok` or `Fault(code)`. Every property below holds for every such function.

Three details of the code are easy to misread, and the model follows the code
in each:

- The delete call is built from the desired model. It therefore names the
  desired `UserHierarchyGroupArn`, not the previous one.
- Name and parent are compared with `StringUtils.equals`. Under it, `null` and
  `""` are different values.
- Tags are compared as (key, value) pairs. A changed value is therefore one
  removal plus one addition.

One consequence of the code as written is proved in `MoveReportsDeletedArn`.
After a successful move, the model reported back still carries the group ARN
that the delete call was given. The ARN of the newly created group is not
recorded anywhere.

## Model

| member | source | states |
|---|---|---|
| UpdateHandler.HandleRequest | aws-connect-userhierarchygroup/src/main/java/software/amazon/connect/userhierarchygroup/UpdateHandler.java:28-54 | The chain of steps: the guard fails with InvalidRequest before any call. The handler never ends in progress and issues at most three calls. A success always reports the desired model. |
| UpdateHandler.UpdateUserHierarchyGroupName | aws-connect-userhierarchygroup/src/main/java/software/amazon/connect/userhierarchygroup/UpdateHandler.java:56-77 | An unchanged name passes the incoming event through with no call. A changed name issues exactly one rename, carrying the desired instance ARN, group ARN and name. The step stays in progress with the desired model if and only if the rename succeeded. A failed rename ends the step with that call's error code. |
| UpdateHandler.UpdateUserHierarchyGroupParent | aws-connect-userhierarchygroup/src/main/java/software/amazon/connect/userhierarchygroup/UpdateHandler.java:79-100 | An unchanged parent passes the incoming event through with no call. A changed parent issues a create with the desired instance, parent and name first. A delete of the desired group ARN follows if and only if the create succeeded. The step stays in progress, with the desired model, only when both succeeded; otherwise it fails with the last call's error. |
| UpdateHandler.DeleteUserHierarchyGroupParent | aws-connect-userhierarchygroup/src/main/java/software/amazon/connect/userhierarchygroup/UpdateHandler.java:102-115 | Exactly one delete is issued, naming the desired instance ARN and the desired group ARN. On success the step stays in progress with the desired model; on failure it fails with that call's error code. |
| Requests.ToUpdateNameRequest | aws-connect-userhierarchygroup/src/main/java/software/amazon/connect/userhierarchygroup/UpdateHandler.java:117-124 | The rename request's instance, group id and name are the model's instance ARN, group ARN and name. |
| Requests.ToCreateRequest | aws-connect-userhierarchygroup/src/main/java/software/amazon/connect/userhierarchygroup/UpdateHandler.java:126-133 | The create request's instance, parent group id and name are the model's instance ARN, parent ARN and name. |
| Requests.ToDeleteRequest | aws-connect-userhierarchygroup/src/main/java/software/amazon/connect/userhierarchygroup/UpdateHandler.java:135-141 | The delete request's instance and group id are the model's instance ARN and group ARN. |
| Tags.TagResource | aws-connect-userhierarchygroup/src/main/java/software/amazon/connect/userhierarchygroup/UpdateHandler.java:143-163 | No additions: the incoming event passes through with no call. Repeated keys: the step fails with InternalFailure before any call. Otherwise exactly one tag call is issued for the desired group ARN, mapping exactly the added keys to their values. The step is in progress with the desired model when that call succeeded, and failed with its error code otherwise. |
| Tags.UnTagResource | aws-connect-userhierarchygroup/src/main/java/software/amazon/connect/userhierarchygroup/UpdateHandler.java:165-185 | No removals: the incoming event passes through with no call. Otherwise exactly one untag call is issued for the desired group ARN, carrying the removed tags' keys. The step is in progress with the desired model when that call succeeded, and failed with its error code otherwise. |
| Resource.IsNotEmpty | aws-connect-userhierarchygroup/src/main/java/software/amazon/connect/userhierarchygroup/UpdateHandler.java:44 | A string is non-empty exactly when it is neither null nor "". |
| UpdateHandler.Plan | aws-connect-userhierarchygroup/src/main/java/software/amazon/connect/userhierarchygroup/UpdateHandler.java:44-53 | The plan is rejected with InvalidRequest exactly when a non-empty desired instance ARN differs from the previous one. Otherwise the kinds of the planned calls form an in-order subsequence of rename, create, delete. Every create is immediately followed by a delete. |
| UpdateHandler.PlanRenamesIffNameChanged | aws-connect-userhierarchygroup/src/main/java/software/amazon/connect/userhierarchygroup/UpdateHandler.java:64-76 | A rename is planned if and only if the names differ under null-safe equality. It carries the desired instance ARN, group ARN and name. |
| UpdateHandler.PlanMovesIffParentChanged | aws-connect-userhierarchygroup/src/main/java/software/amazon/connect/userhierarchygroup/UpdateHandler.java:86-114 | A create and a delete are planned if and only if the parent ARNs differ. The create carries the desired instance, parent and name. The delete carries the desired instance and the desired group ARN. |
| UpdateHandler.EmptyInstanceArnNeverRejected | aws-connect-userhierarchygroup/src/main/java/software/amazon/connect/userhierarchygroup/UpdateHandler.java:44 | A null or empty desired instance ARN never trips the guard, whatever the previous ARN is. |
| UpdateHandler.RejectsInstanceChange | aws-connect-userhierarchygroup/src/main/java/software/amazon/connect/userhierarchygroup/UpdateHandler.java:44-46 | A changed, non-empty instance ARN fails with InvalidRequest, and no call is issued. |
| UpdateHandler.ExecuteStopsAtFirstFailure | aws-connect-userhierarchygroup/src/main/java/software/amazon/connect/userhierarchygroup/UpdateHandler.java:48-53 | The calls issued are a prefix of the plan, and all but the last succeeded. The outcome is success with the desired model exactly when every planned call succeeded. Otherwise it is the error of the last call issued. |
| UpdateHandler.PlanMatchesChain | aws-connect-userhierarchygroup/src/main/java/software/amazon/connect/userhierarchygroup/UpdateHandler.java:48-53 | For every service behaviour, the chain of then-steps and the executed plan issue the same calls and end in the same event. |
| UpdateHandler.Run | aws-connect-userhierarchygroup/src/main/java/software/amazon/connect/userhierarchygroup/UpdateHandler.java:28-54 | The loop executor (guard, plan, then one call at a time) returns exactly what the chain of steps returns. |
| UpdateHandler.ExecuteCalls | aws-connect-userhierarchygroup/src/main/java/software/amazon/connect/userhierarchygroup/UpdateHandler.java:48-53 | The loop that issues calls one by one and stops at the first failure agrees with the fold Execute. |
| UpdateHandler.ExecuteOkPrefix | aws-connect-userhierarchygroup/src/main/java/software/amazon/connect/userhierarchygroup/UpdateHandler.java:48-53 | When a run of calls all succeed, executing the whole list is those calls followed by executing the rest. |
| UpdateHandler.UnchangedIssuesNothing | aws-connect-userhierarchygroup/src/main/java/software/amazon/connect/userhierarchygroup/UpdateHandler.java:64-98 | With name and parent unchanged and the guard passed, no call is issued and the outcome is success with the desired model. This holds for every service behaviour. |
| UpdateHandler.RerunAfterSuccessIsNoOp | aws-connect-userhierarchygroup/src/main/java/software/amazon/connect/userhierarchygroup/UpdateHandler.java:48-53 | After a successful update, running again with the applied model as the previous state issues no call and succeeds with the same model. |
| UpdateHandler.IssuedCallsAreOrderedPrefix | aws-connect-userhierarchygroup/src/main/java/software/amazon/connect/userhierarchygroup/UpdateHandler.java:48-50 | Whatever the service answers, the calls issued are a prefix of the plan. Their kinds are an in-order subsequence of rename, create, delete, and every call before the last succeeded. |
| UpdateHandler.FailureIsLastCall | aws-connect-userhierarchygroup/src/main/java/software/amazon/connect/userhierarchygroup/UpdateHandler.java:48-53 | A failed update ends at the failing call: it is the last call issued, and its error is the outcome. |
| UpdateHandler.FailedCreateSkipsDelete | aws-connect-userhierarchygroup/src/main/java/software/amazon/connect/userhierarchygroup/UpdateHandler.java:90-94 | If the create fails, no delete is ever issued. Unless an earlier rename failed, the create's error is the outcome. |
| UpdateHandler.SuccessIssuedWholePlan | aws-connect-userhierarchygroup/src/main/java/software/amazon/connect/userhierarchygroup/UpdateHandler.java:53 | Success means the whole plan was issued, and the reported model is the desired one. |
| UpdateHandler.RenameBeforeMove | aws-connect-userhierarchygroup/src/main/java/software/amazon/connect/userhierarchygroup/UpdateHandler.java:49-50 | When name and parent both change and every call succeeds, the calls are rename, create, delete, in that order. The create uses the desired name. |
| UpdateHandler.MoveReportsDeletedArn | aws-connect-userhierarchygroup/src/main/java/software/amazon/connect/userhierarchygroup/UpdateHandler.java:102-114 | After a successful move, the reported model's group ARN is the one the delete call removed. |
| UpdateHandler.ExampleMoveToTopLevel | aws-connect-userhierarchygroup/src/test/java/software/amazon/connect/userhierarchygroup/UserHierarchyGroupTestDataProvider.java:4-21 | For the fixture group moved to the top level, the handler issues exactly a create with no parent and then a delete of the fixture ARN, and succeeds. |
| Progress.Then | aws-connect-userhierarchygroup/src/main/java/software/amazon/connect/userhierarchygroup/UpdateHandler.java:48-53 | A finished or failed event skips every later step. An in-progress event runs the next step, and the calls issued are those made so far followed by the next step's calls. |
| Progress.Invoke | aws-connect-userhierarchygroup/src/main/java/software/amazon/connect/userhierarchygroup/UpdateHandler.java:68-71 | One proxied service call is issued exactly once. The event stays in progress with the initiating model if and only if the service succeeded. Otherwise it carries the service's error code. |
| Requests.UpdateNameRequestDependsOnExactly | aws-connect-userhierarchygroup/src/main/java/software/amazon/connect/userhierarchygroup/UpdateHandler.java:117-124 | Two models give the same rename request if and only if they agree on instance ARN, group ARN and name. |
| Requests.CreateRequestDependsOnExactly | aws-connect-userhierarchygroup/src/main/java/software/amazon/connect/userhierarchygroup/UpdateHandler.java:126-133 | Two models give the same create request if and only if they agree on instance ARN, parent ARN and name. The group's own ARN plays no part. |
| Requests.DeleteRequestDependsOnExactly | aws-connect-userhierarchygroup/src/main/java/software/amazon/connect/userhierarchygroup/UpdateHandler.java:135-141 | Two models give the same delete request if and only if they agree on instance ARN and group ARN. |
| Tags.TagsToRemove | aws-connect-userhierarchygroup/src/main/java/software/amazon/connect/userhierarchygroup/UpdateHandler.java:39 | The tags to remove are exactly the previous tags that are not desired. |
| Tags.TagsToAdd | aws-connect-userhierarchygroup/src/main/java/software/amazon/connect/userhierarchygroup/UpdateHandler.java:40 | The tags to add are exactly the desired tags that were not there before. |
| Tags.TagDiffPartition | aws-connect-userhierarchygroup/src/main/java/software/amazon/connect/userhierarchygroup/UpdateHandler.java:39-40 | A tag present in both states is in neither difference. The two differences are disjoint. |
| Tags.TagDiffConverges | aws-connect-userhierarchygroup/src/main/java/software/amazon/connect/userhierarchygroup/UpdateHandler.java:39-40 | Removing the removals and adding the additions turns the previous tag set into the desired one. |
| Tags.TagDiffExample | aws-connect-userhierarchygroup/src/main/java/software/amazon/connect/userhierarchygroup/UpdateHandler.java:39-40 | From {A:1, B:2} to {B:2, C:3}: add {C:3} and remove {A:1}. |
| Tags.ToUntagRequest | aws-connect-userhierarchygroup/src/main/java/software/amazon/connect/userhierarchygroup/UpdateHandler.java:193-200 | The untag request names the given resource and carries exactly the keys of the tags. |
| Tags.TagsToSdk | aws-connect-userhierarchygroup/src/main/java/software/amazon/connect/userhierarchygroup/UpdateHandler.java:209-212 | Collecting tags into a map succeeds exactly when no key repeats. The result maps each tag's key to its value and has no other keys. |
| Tags.ToTagRequest | aws-connect-userhierarchygroup/src/main/java/software/amazon/connect/userhierarchygroup/UpdateHandler.java:202-207 | The tag request names the given resource. Its map has exactly the tags' keys and maps each key to its tag's value. Building it fails, with InternalFailure, exactly when two tags share a key. |
| Tags.TagStepsCallIffNonEmpty | aws-connect-userhierarchygroup/src/main/java/software/amazon/connect/userhierarchygroup/UpdateHandler.java:143-185 | The untag and tag steps issue no call for an empty set and pass the event through unchanged. For a non-empty set each issues exactly one call, for the desired group's ARN, carrying the set's keys. It summarises what the two step contracts state about the calls. |
| Tags.TagRequestForAdditionsSucceeds | aws-connect-userhierarchygroup/src/main/java/software/amazon/connect/userhierarchygroup/UpdateHandler.java:202-211 | When the desired tags have unique keys, building the tag request for the additions never fails. |
| Tags.ValueChangeIsRemoveAndAdd | aws-connect-userhierarchygroup/src/main/java/software/amazon/connect/userhierarchygroup/UpdateHandler.java:39-40 | A key whose value changed is in the untag request, and the tag request maps it to the new value. |
| Tags.StoreConverges | aws-connect-userhierarchygroup/src/main/java/software/amazon/connect/userhierarchygroup/UpdateHandler.java:39-40 | A store holding the previous tags, with the removed keys dropped and the added tags written, holds exactly the desired tags, provided neither side repeats a key. |
| Tags.UntagThenTagConverges | aws-connect-userhierarchygroup/src/main/java/software/amazon/connect/userhierarchygroup/UpdateHandler.java:51-52 | Untagging the removals and then tagging the additions, in the order of the disabled chain, takes a tag store holding the previous tags to one holding exactly the desired tags. |
| Tags.UntagStepApplies | aws-connect-userhierarchygroup/src/main/java/software/amazon/connect/userhierarchygroup/UpdateHandler.java:165-185 | Whatever the service answers, the calls the untag step issues act on a tag store as the untag request built from the removals. When nothing is removed, the store is left alone. |
| Tags.TagStepApplies | aws-connect-userhierarchygroup/src/main/java/software/amazon/connect/userhierarchygroup/UpdateHandler.java:143-163 | When the added tags repeat no key, the tag request can be built. Whatever the service answers, the calls the tag step issues act on a tag store as that request. When nothing is added, the store is left alone. |
| Tags.TagStepsConverge | aws-connect-userhierarchygroup/src/main/java/software/amazon/connect/userhierarchygroup/UpdateHandler.java:51-52 | The untag step followed by the tag step, chained in the order of the disabled lines: if the chain ends in progress, the calls it issued take a store holding the previous tags to one holding exactly the desired tags. |

## Left out

- Logging calls are not modelled, because they have no effect on the calls or the outcome.
- `CallbackContext` is not modelled. It is passed through untouched.
- The SDK client, `ProxyClient` and `AmazonWebServicesClientProxy` are not modelled. Each call is the abstract reply of `respond`.
- `BaseHandlerStd.invoke` and its exception translation are not part of this model. A failed call is `Fault(code)` with an arbitrary error code.
- The framework turns the guard's `CfnInvalidRequestException` into a failed event. The model returns that failed event directly, with no call issued.
- `convertResourceTagsToSet` is not part of this model. The tag sets are inputs.
- Tag keys and values are non-null strings. The null-value failure of `Collectors.toMap` is not modelled.
- `streamOfOrEmpty`'s handling of a null collection is not modelled, because a Dafny set is never null.
- Progress.Then: only the in-progress status continues. The callback delay that `ProgressEvent` also checks is not modelled, because this handler never sets one.
- ApplyUntag and ApplyTag are not code of the handler. They are an assumed model of the service's tag store: untag removes the named keys and tag writes the given key-value pairs. Tags.StoreConverges, Tags.UntagThenTagConverges and Tags.TagStepsConverge rest on that assumption, and on ApplyCalls, which applies calls in order and leaves the store alone for calls other than untag and tag.
- Several tag lemmas require that no key repeats within a tag set. This matches the source, where the previous and desired tag sets are built from the request's key-to-value tag maps (UpdateHandler.java lines 37-38), so a key occurs at most once. The conversion itself, `convertResourceTagsToSet`, is not part of this model.
- The untag and tag steps are modelled, but `HandleRequest` does not call them, matching the commented-out lines of the chain.
