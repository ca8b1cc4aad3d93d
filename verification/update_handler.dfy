/**
 The update handler of a user hierarchy group. From the previous and the
 desired resource model it rejects an instance change, renames the group when
 the name changed, and moves it to a new parent, when the parent changed, by
 creating a group under the new parent and then deleting the group.

 The handler is modelled twice: `HandleRequest` follows the chain of
 `ProgressEvent.then` steps as written, and `Plan` followed by `Execute`
 computes the list of calls first and then folds the service's replies over
 it. `PlanMatchesChain` proves the two agree.
 */
module UpdateHandler {
  import opened Wrappers
  import opened Resource
  import opened Requests
  import opened Progress

  /** The guard: a non-empty desired instance ARN that differs from the previous one. */
  predicate InstanceArnChanged(previous: ResourceModel, desired: ResourceModel) {
    IsNotEmpty(desired.instanceArn) && desired.instanceArn != previous.instanceArn
  }

  /** `!StringUtils.equals` on the names: null and "" are different names. */
  predicate NameChanged(previous: ResourceModel, desired: ResourceModel) {
    desired.name != previous.name
  }

  /** `!StringUtils.equals` on the parent group ARNs. */
  predicate ParentChanged(previous: ResourceModel, desired: ResourceModel) {
    desired.parentGroupArn != previous.parentGroupArn
  }

  function RenameCall(desired: ResourceModel): Call {
    UpdateGroupName(ToUpdateNameRequest(desired))
  }

  function CreateCall(desired: ResourceModel): Call {
    CreateGroup(ToCreateRequest(desired))
  }

  function DeleteCall(desired: ResourceModel): Call {
    DeleteGroup(ToDeleteRequest(desired))
  }

  // ---------------------------------------------------------------------
  // The handler as a chain of steps
  // ---------------------------------------------------------------------

  /** The rename step: one rename call when the name changed, else the incoming event unchanged. */
  function UpdateUserHierarchyGroupName(respond: Call -> Reply, previous: ResourceModel, desired: ResourceModel, progress: Event): (s: Step)
    ensures desired.name == previous.name ==> s == Step([], progress)
    ensures desired.name != previous.name ==>
              && s.issued == [UpdateGroupName(UpdateNameRequest(desired.instanceArn, desired.userHierarchyGroupArn, desired.name))]
              && (s.event.InProgress? <==> respond(s.issued[0]).Ok?)
              && (s.event.InProgress? ==> s.event.model == desired)
              && (respond(s.issued[0]).Fault? ==> s.event == Failed(respond(s.issued[0]).code))
  {
    if NameChanged(previous, desired) then
      Invoke(respond, RenameCall(desired), desired)
    else
      Step([], progress)
  }

  /**
   The delete half of a move. The previous model is handed to it in the
   handler but never read: the request is built from the desired model.
   */
  function DeleteUserHierarchyGroupParent(respond: Call -> Reply, desired: ResourceModel): (s: Step)
    ensures s.issued == [DeleteGroup(DeleteRequest(desired.instanceArn, desired.userHierarchyGroupArn))]
    ensures s.event.InProgress? <==> respond(s.issued[0]).Ok?
    ensures s.event.InProgress? ==> s.event.model == desired
    ensures respond(s.issued[0]).Fault? ==> s.event == Failed(respond(s.issued[0]).code)
  {
    Invoke(respond, DeleteCall(desired), desired)
  }

  /** The move step: a create call and, only if it succeeded, a delete call; else the incoming event unchanged. */
  function UpdateUserHierarchyGroupParent(respond: Call -> Reply, previous: ResourceModel, desired: ResourceModel, progress: Event): (s: Step)
    ensures desired.parentGroupArn == previous.parentGroupArn ==> s == Step([], progress)
    ensures desired.parentGroupArn != previous.parentGroupArn ==>
              && 1 <= |s.issued| <= 2
              && s.issued[0] == CreateGroup(CreateRequest(desired.instanceArn, desired.parentGroupArn, desired.name))
              && (|s.issued| == 2 <==> respond(s.issued[0]).Ok?)
              && (|s.issued| == 2 ==> s.issued[1] == DeleteGroup(DeleteRequest(desired.instanceArn, desired.userHierarchyGroupArn)))
              && (s.event.InProgress? <==> |s.issued| == 2 && respond(s.issued[1]).Ok?)
              && (s.event.InProgress? ==> s.event.model == desired)
              && (!s.event.InProgress? ==> s.event == Failed(respond(s.issued[|s.issued| - 1]).code))
  {
    if ParentChanged(previous, desired) then
      Then(Invoke(respond, CreateCall(desired), desired), p => DeleteUserHierarchyGroupParent(respond, desired))
    else
      Step([], progress)
  }

  /**
   `handleRequest`: the guard, then rename, then move, then success with the
   desired model. The guard's exception becomes a failed event with no call.
   */
  function HandleRequest(respond: Call -> Reply, previous: ResourceModel, desired: ResourceModel): (s: Step)
    ensures InstanceArnChanged(previous, desired) ==> s == Step([], Failed(InvalidRequest))
    ensures !s.event.InProgress?
    ensures s.event.Succeeded? ==> s.event.model == desired
    ensures |s.issued| <= 3
  {
    if InstanceArnChanged(previous, desired) then
      Step([], Failed(InvalidRequest))
    else
      var start := Step([], InProgress(desired));
      var named := Then(start, p => UpdateUserHierarchyGroupName(respond, previous, desired, p));
      var moved := Then(named, p => UpdateUserHierarchyGroupParent(respond, previous, desired, p));
      Finish(moved, desired)
  }

  // ---------------------------------------------------------------------
  // The handler as a plan and an executor
  // ---------------------------------------------------------------------

  /** `a` can be obtained from `b` by dropping elements. */
  predicate IsSubsequence<T(==)>(a: seq<T>, b: seq<T>)
    decreases |b|
  {
    |a| == 0 || (|b| > 0 && if a[0] == b[0] then IsSubsequence(a[1..], b[1..]) else IsSubsequence(a, b[1..]))
  }

  /** Every create is immediately followed by a delete, and every delete immediately preceded by a create. */
  predicate CreateThenDelete(calls: seq<Call>) {
    && (forall i :: 0 <= i < |calls| && calls[i].CreateGroup? ==> i + 1 < |calls| && calls[i + 1].DeleteGroup?)
    && (forall i :: 0 <= i < |calls| && calls[i].DeleteGroup? ==> 0 < i && calls[i - 1].CreateGroup?)
  }

  /** The rename step's share of the plan. */
  function RenamePlan(previous: ResourceModel, desired: ResourceModel): seq<Call> {
    if NameChanged(previous, desired) then [RenameCall(desired)] else []
  }

  /** The move step's share of the plan: create under the new parent, then delete. */
  function MovePlan(previous: ResourceModel, desired: ResourceModel): seq<Call> {
    if ParentChanged(previous, desired) then [CreateCall(desired), DeleteCall(desired)] else []
  }

  /** The calls the handler would issue if every one of them succeeded, or the guard's error. */
  function Plan(previous: ResourceModel, desired: ResourceModel): (r: Result<seq<Call>, ErrorCode>)
    ensures r.Failure? <==> InstanceArnChanged(previous, desired)
    ensures r.Failure? ==> r.error == InvalidRequest
    ensures r.Success? ==> IsSubsequence(KindsOf(r.value), [RenameKind, CreateKind, DeleteKind])
    ensures r.Success? ==> CreateThenDelete(r.value)
  {
    if InstanceArnChanged(previous, desired) then
      Failure(InvalidRequest)
    else
      Success(RenamePlan(previous, desired) + MovePlan(previous, desired))
  }

  /** Every call of the list succeeds. */
  predicate AllOk(respond: Call -> Reply, calls: seq<Call>) {
    forall i :: 0 <= i < |calls| ==> respond(calls[i]).Ok?
  }

  /** The executor: issue the calls in order and stop at the first failure. */
  function Execute(calls: seq<Call>, respond: Call -> Reply, desired: ResourceModel): Step
    decreases |calls|
  {
    if |calls| == 0 then
      Step([], Succeeded(desired))
    else
      match respond(calls[0])
      case Fault(code) => Step([calls[0]], Failed(code))
      case Ok =>
        var rest := Execute(calls[1..], respond, desired);
        Step([calls[0]] + rest.issued, rest.event)
  }

  /**
   The calls the executor issues are a prefix of the plan and all but the last
   succeeded; the outcome is success with the desired model exactly when every
   call succeeded, and otherwise the error of the last call issued.
   */
  lemma {:induction false} ExecuteStopsAtFirstFailure(calls: seq<Call>, respond: Call -> Reply, desired: ResourceModel)
    ensures var s := Execute(calls, respond, desired);
            && s.issued <= calls
            && (forall i :: 0 <= i < |s.issued| - 1 ==> respond(s.issued[i]).Ok?)
            && (s.event.Succeeded? <==> AllOk(respond, calls))
            && (s.event.Succeeded? ==> s.issued == calls && s.event.model == desired)
            && (!s.event.Succeeded? ==> s.event.Failed? && |s.issued| > 0 && respond(s.issued[|s.issued| - 1]) == Fault(s.event.code))
    decreases |calls|
  {
    if |calls| > 0 && respond(calls[0]).Ok? {
      var rest := calls[1..];
      assert calls == [calls[0]] + rest;
      ExecuteStopsAtFirstFailure(rest, respond, desired);
      var r := Execute(rest, respond, desired);
      assert forall i :: 0 <= i < |rest| ==> rest[i] == calls[i + 1];
      assert ([calls[0]] + r.issued)[1..] == r.issued;
    }
  }

  /** The plan and the executor, composed: the guard's error with no call, or the plan executed. */
  function Reconcile(respond: Call -> Reply, previous: ResourceModel, desired: ResourceModel): Step {
    match Plan(previous, desired)
    case Failure(e) => Step([], Failed(e))
    case Success(calls) => Execute(calls, respond, desired)
  }

  // ---------------------------------------------------------------------
  // The two views agree
  // ---------------------------------------------------------------------

  /** Executing after a successful first call is that call followed by executing the rest. */
  lemma ExecuteCons(c: Call, rest: seq<Call>, respond: Call -> Reply, desired: ResourceModel)
    requires respond(c).Ok?
    ensures Execute([c] + rest, respond, desired)
         == Step([c] + Execute(rest, respond, desired).issued, Execute(rest, respond, desired).event)
  {
    assert ([c] + rest)[1..] == rest;
  }

  /** The last link of the handler's chain: success with the desired model if still in progress. */
  function Finish(s: Step, desired: ResourceModel): Step {
    Then(s, p => Step([], Succeeded(desired)))
  }

  /** Chaining onto a step whose calls are preceded by `a` is chaining onto the step, preceded by `a`. */
  lemma ThenPrefix(a: seq<Call>, s: Step, next: Event -> Step)
    ensures Then(Step(a + s.issued, s.event), next) == Step(a + Then(s, next).issued, Then(s, next).event)
  {
    if s.event.InProgress? {
      assert (a + s.issued) + next(s.event).issued == a + (s.issued + next(s.event).issued);
    }
  }

  /** The move step, finished, equals executing the move plan. */
  lemma MoveMatchesPlan(respond: Call -> Reply, previous: ResourceModel, desired: ResourceModel)
    ensures Finish(UpdateUserHierarchyGroupParent(respond, previous, desired, InProgress(desired)), desired)
         == Execute(MovePlan(previous, desired), respond, desired)
  {
    var create := CreateCall(desired);
    var delete := DeleteCall(desired);
    if ParentChanged(previous, desired) && respond(create).Ok? {
      ExecuteCons(create, [delete], respond, desired);
      if respond(delete).Ok? {
        ExecuteCons(delete, [], respond, desired);
        assert [create] + [delete] + [] == [create] + ([delete] + []);
      }
    } else if !ParentChanged(previous, desired) {
      var none: seq<Call> := [];
      assert none + none == none;
    }
  }

  /** Chaining a step onto a fresh in-progress event is just that step. */
  lemma ThenFromStart(model: ResourceModel, next: Event -> Step)
    ensures Then(Step([], InProgress(model)), next) == next(InProgress(model))
  {
    assert [] + next(InProgress(model)).issued == next(InProgress(model)).issued;
  }

  /**
   For every answer the service could give, the chain of steps as written and
   the plan folded by the executor issue the same calls and end in the same event.
   */
  lemma PlanMatchesChain(respond: Call -> Reply, previous: ResourceModel, desired: ResourceModel)
    ensures HandleRequest(respond, previous, desired) == Reconcile(respond, previous, desired)
  {
    if !InstanceArnChanged(previous, desired) {
      var nameStep := p => UpdateUserHierarchyGroupName(respond, previous, desired, p);
      var parentStep := p => UpdateUserHierarchyGroupParent(respond, previous, desired, p);
      ThenFromStart(desired, nameStep);
      var n := UpdateUserHierarchyGroupName(respond, previous, desired, InProgress(desired));
      var rename := RenamePlan(previous, desired);
      var move := MovePlan(previous, desired);
      if n.event.InProgress? {
        assert n == Step(rename, InProgress(desired));
        var m := UpdateUserHierarchyGroupParent(respond, previous, desired, InProgress(desired));
        assert Then(n, parentStep) == Step(rename + m.issued, m.event);
        ThenPrefix(rename, m, p => Step([], Succeeded(desired)));
        MoveMatchesPlan(respond, previous, desired);
        if NameChanged(previous, desired) {
          ExecuteCons(RenameCall(desired), move, respond, desired);
        } else {
          assert [] + move == move;
        }
      } else {
        assert ([RenameCall(desired)] + move)[0] == RenameCall(desired);
      }
    }
  }

  // ---------------------------------------------------------------------
  // Properties of the plan
  // ---------------------------------------------------------------------

  /** A rename is planned exactly when the names differ, and it carries the desired instance, group and name. */
  lemma PlanRenamesIffNameChanged(previous: ResourceModel, desired: ResourceModel)
    requires !InstanceArnChanged(previous, desired)
    ensures RenameKind in KindsOf(Plan(previous, desired).value) <==> NameChanged(previous, desired)
    ensures forall c :: c in Plan(previous, desired).value && c.UpdateGroupName? ==>
              c.nameRequest == UpdateNameRequest(desired.instanceArn, desired.userHierarchyGroupArn, desired.name)
  {
  }

  /**
   A create and a delete are planned exactly when the parents differ; the
   create carries the desired instance, parent and name, the delete the
   desired instance and the desired group ARN.
   */
  lemma PlanMovesIffParentChanged(previous: ResourceModel, desired: ResourceModel)
    requires !InstanceArnChanged(previous, desired)
    ensures CreateKind in KindsOf(Plan(previous, desired).value) <==> ParentChanged(previous, desired)
    ensures DeleteKind in KindsOf(Plan(previous, desired).value) <==> ParentChanged(previous, desired)
    ensures forall c :: c in Plan(previous, desired).value && c.CreateGroup? ==>
              c.createRequest == CreateRequest(desired.instanceArn, desired.parentGroupArn, desired.name)
    ensures forall c :: c in Plan(previous, desired).value && c.DeleteGroup? ==>
              c.deleteRequest == DeleteRequest(desired.instanceArn, desired.userHierarchyGroupArn)
  {
  }

  /** An empty desired instance ARN never trips the guard, whatever the previous ARN was. */
  lemma EmptyInstanceArnNeverRejected(previous: ResourceModel, desired: ResourceModel)
    requires desired.instanceArn == None || desired.instanceArn == Some("")
    ensures Plan(previous, desired).Success?
  {
  }

  /** A prefix of a subsequence of `c` is itself a subsequence of `c`. */
  lemma {:induction false} PrefixOfSubsequence<T>(a: seq<T>, b: seq<T>, c: seq<T>)
    requires a <= b && IsSubsequence(b, c)
    ensures IsSubsequence(a, c)
    decreases |c|
  {
    if |a| > 0 {
      assert |b| > 0 && |c| > 0;
      if b[0] == c[0] {
        PrefixOfSubsequence(a[1..], b[1..], c[1..]);
      } else {
        PrefixOfSubsequence(a, b, c[1..]);
      }
    }
  }

  // ---------------------------------------------------------------------
  // Properties of the handler
  // ---------------------------------------------------------------------

  /** A changed, non-empty instance ARN fails the update with InvalidRequest before any call. */
  lemma RejectsInstanceChange(respond: Call -> Reply, previous: ResourceModel, desired: ResourceModel)
    requires IsNotEmpty(desired.instanceArn) && desired.instanceArn != previous.instanceArn
    ensures HandleRequest(respond, previous, desired) == Step([], Failed(InvalidRequest))
  {
  }

  /** With name and parent unchanged and the guard passed, no call is made and the desired model is returned. */
  lemma UnchangedIssuesNothing(respond: Call -> Reply, previous: ResourceModel, desired: ResourceModel)
    requires !InstanceArnChanged(previous, desired)
    requires desired.name == previous.name && desired.parentGroupArn == previous.parentGroupArn
    ensures HandleRequest(respond, previous, desired) == Step([], Succeeded(desired))
  {
    PlanMatchesChain(respond, previous, desired);
  }

  /**
   Once an update has succeeded, running it again with the applied model as
   the previous state makes no call and succeeds with the same model, however
   the service would answer. The success is needed only to know that the
   applied model is the desired one: a run whose previous and desired models
   are equal makes no call whatever the model.
   */
  lemma RerunAfterSuccessIsNoOp(respond: Call -> Reply, again: Call -> Reply, previous: ResourceModel, desired: ResourceModel)
    requires HandleRequest(respond, previous, desired).event.Succeeded?
    ensures var applied := HandleRequest(respond, previous, desired).event.model;
            HandleRequest(again, applied, applied) == Step([], Succeeded(desired))
  {
    PlanMatchesChain(respond, previous, desired);
    UnchangedIssuesNothing(again, desired, desired);
  }

  /**
   The calls issued are a prefix of the plan, hence always an in-order
   subsequence of rename, create, delete; all but the last succeeded.
   */
  lemma IssuedCallsAreOrderedPrefix(respond: Call -> Reply, previous: ResourceModel, desired: ResourceModel)
    requires !InstanceArnChanged(previous, desired)
    ensures var s := HandleRequest(respond, previous, desired);
            && s.issued <= Plan(previous, desired).value
            && IsSubsequence(KindsOf(s.issued), [RenameKind, CreateKind, DeleteKind])
            && (forall i :: 0 <= i < |s.issued| - 1 ==> respond(s.issued[i]).Ok?)
  {
    PlanMatchesChain(respond, previous, desired);
    var calls := Plan(previous, desired).value;
    ExecuteStopsAtFirstFailure(calls, respond, desired);
    var issued := Execute(calls, respond, desired).issued;
    assert KindsOf(issued) <= KindsOf(calls);
    PrefixOfSubsequence(KindsOf(issued), KindsOf(calls), [RenameKind, CreateKind, DeleteKind]);
  }

  /** The first failing call ends the update: it is the last call issued and its error is the outcome. */
  lemma FailureIsLastCall(respond: Call -> Reply, previous: ResourceModel, desired: ResourceModel)
    requires !InstanceArnChanged(previous, desired)
    requires HandleRequest(respond, previous, desired).event.Failed?
    ensures var s := HandleRequest(respond, previous, desired);
            |s.issued| > 0 && respond(s.issued[|s.issued| - 1]) == Fault(s.event.code)
  {
    PlanMatchesChain(respond, previous, desired);
    ExecuteStopsAtFirstFailure(Plan(previous, desired).value, respond, desired);
  }

  /**
   A failed create ends the move: no delete is issued, and unless a rename
   failed before it, the create's error is the outcome.
   */
  lemma FailedCreateSkipsDelete(respond: Call -> Reply, previous: ResourceModel, desired: ResourceModel)
    requires !InstanceArnChanged(previous, desired) && ParentChanged(previous, desired)
    requires respond(CreateCall(desired)).Fault?
    ensures DeleteKind !in KindsOf(HandleRequest(respond, previous, desired).issued)
    ensures respond(RenameCall(desired)).Ok? || !NameChanged(previous, desired) ==>
              HandleRequest(respond, previous, desired).event == Failed(respond(CreateCall(desired)).code)
  {
    PlanMatchesChain(respond, previous, desired);
  }

  /** The update succeeds only after every planned call succeeded, and reports the desired model. */
  lemma SuccessIssuedWholePlan(respond: Call -> Reply, previous: ResourceModel, desired: ResourceModel)
    requires HandleRequest(respond, previous, desired).event.Succeeded?
    ensures Plan(previous, desired).Success?
    ensures HandleRequest(respond, previous, desired).issued == Plan(previous, desired).value
    ensures HandleRequest(respond, previous, desired).event.model == desired
  {
    PlanMatchesChain(respond, previous, desired);
    if Plan(previous, desired).Success? {
      ExecuteStopsAtFirstFailure(Plan(previous, desired).value, respond, desired);
    }
  }

  /**
   When both name and parent change, the rename comes first and the new group
   is created under the new name and the new parent.
   */
  lemma RenameBeforeMove(respond: Call -> Reply, previous: ResourceModel, desired: ResourceModel)
    requires !InstanceArnChanged(previous, desired)
    requires NameChanged(previous, desired) && ParentChanged(previous, desired)
    requires respond(RenameCall(desired)).Ok? && respond(CreateCall(desired)).Ok? && respond(DeleteCall(desired)).Ok?
    ensures HandleRequest(respond, previous, desired).issued == [
              UpdateGroupName(UpdateNameRequest(desired.instanceArn, desired.userHierarchyGroupArn, desired.name)),
              CreateGroup(CreateRequest(desired.instanceArn, desired.parentGroupArn, desired.name)),
              DeleteGroup(DeleteRequest(desired.instanceArn, desired.userHierarchyGroupArn))]
  {
    PlanMatchesChain(respond, previous, desired);
  }

  /**
   After a successful move, the model reported back still names the group ARN
   the delete call was given: the new group's identity is not recorded.
   */
  lemma MoveReportsDeletedArn(respond: Call -> Reply, previous: ResourceModel, desired: ResourceModel)
    requires ParentChanged(previous, desired)
    requires HandleRequest(respond, previous, desired).event.Succeeded?
    ensures exists d :: d in HandleRequest(respond, previous, desired).issued && d.DeleteGroup?
              && d.deleteRequest.hierarchyGroupId == HandleRequest(respond, previous, desired).event.model.userHierarchyGroupArn
  {
    PlanMatchesChain(respond, previous, desired);
    PlanMovesIffParentChanged(previous, desired);
  }

  // ---------------------------------------------------------------------
  // The executor as a loop
  // ---------------------------------------------------------------------

  /**
   The update handler as a loop over the plan: make each call in turn and
   stop at the first failure. It behaves exactly as the chain of steps.
   */
  method Run(respond: Call -> Reply, previous: ResourceModel, desired: ResourceModel) returns (s: Step)
    ensures s == HandleRequest(respond, previous, desired)
  {
    PlanMatchesChain(respond, previous, desired);
    match Plan(previous, desired)
    case Failure(e) =>
      s := Step([], Failed(e));
    case Success(calls) =>
      s := ExecuteCalls(calls, respond, desired);
  }

  /** Executing calls that all succeed up to `k` is those calls followed by executing the rest. */
  lemma {:induction false} ExecuteOkPrefix(calls: seq<Call>, k: nat, respond: Call -> Reply, desired: ResourceModel)
    requires k <= |calls|
    requires forall i :: 0 <= i < k ==> respond(calls[i]).Ok?
    ensures Execute(calls, respond, desired).issued == calls[..k] + Execute(calls[k..], respond, desired).issued
    ensures Execute(calls, respond, desired).event == Execute(calls[k..], respond, desired).event
    decreases k
  {
    if k > 0 {
      var rest := calls[1..];
      assert calls == [calls[0]] + rest;
      ExecuteCons(calls[0], rest, respond, desired);
      assert forall i :: 0 <= i < k - 1 ==> rest[i] == calls[i + 1];
      ExecuteOkPrefix(rest, k - 1, respond, desired);
      assert rest[k - 1..] == calls[k..];
      assert calls[..k] == [calls[0]] + rest[..k - 1];
    }
  }

  /** Issue the calls one by one, stopping at the first failure, exactly as the fold `Execute` does. */
  method ExecuteCalls(calls: seq<Call>, respond: Call -> Reply, desired: ResourceModel) returns (s: Step)
    ensures s == Execute(calls, respond, desired)
  {
    var k := 0;
    while k < |calls|
      invariant 0 <= k <= |calls|
      invariant forall i :: 0 <= i < k ==> respond(calls[i]).Ok?
    {
      var reply := respond(calls[k]);
      if reply.Fault? {
        ExecuteOkPrefix(calls, k, respond, desired);
        assert calls[k..][0] == calls[k];
        assert calls[..k] + [calls[k]] == calls[..k + 1];
        return Step(calls[..k + 1], Failed(reply.code));
      }
      k := k + 1;
    }
    ExecuteOkPrefix(calls, k, respond, desired);
    assert calls[..k] + [] == calls;
    s := Step(calls, Succeeded(desired));
  }

  // ---------------------------------------------------------------------
  // Worked example
  // ---------------------------------------------------------------------

  const InstanceArn := "arn:aws:connect:us-west-2:111111111111:instance/instanceId"
  const GroupArn := "arn:aws:connect:us-west-2:111111111111:instance/instanceId/agent-group/userhierarchygroupId"
  const ParentArn := "arn:aws:connect:us-west-2:111111111111:instance/instanceId/agent-group/parenthierarchygroupId"

  /** A move of the fixture group to the top level: create without a parent, then delete the group. */
  lemma ExampleMoveToTopLevel(respond: Call -> Reply)
    requires forall c :: respond(c) == Ok
    ensures var previous := ResourceModel(Some(GroupArn), Some(InstanceArn), Some("userhierarchygroupName"), Some(ParentArn));
            var desired := previous.(parentGroupArn := None);
            HandleRequest(respond, previous, desired) == Step(
              [CreateGroup(CreateRequest(Some(InstanceArn), None, Some("userhierarchygroupName"))),
               DeleteGroup(DeleteRequest(Some(InstanceArn), Some(GroupArn)))],
              Succeeded(desired))
  {
    var previous := ResourceModel(Some(GroupArn), Some(InstanceArn), Some("userhierarchygroupName"), Some(ParentArn));
    PlanMatchesChain(respond, previous, previous.(parentGroupArn := None));
  }
}
