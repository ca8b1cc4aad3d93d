/**
 The tag reconciliation helpers of the update handler: the set differences,
 the untag and tag request builders, and the two steps that would issue them.
 The handler's chain does not call these steps.
 */
module Tags {
  import opened Wrappers
  import opened Resource
  import opened Requests
  import opened Progress

  /** Tags present before and absent now. */
  function TagsToRemove(previous: set<Tag>, desired: set<Tag>): (r: set<Tag>)
    ensures r <= previous && r !! desired
    ensures forall t :: t in previous && t !in desired ==> t in r
  {
    previous - desired
  }

  /** Tags present now and absent before. */
  function TagsToAdd(previous: set<Tag>, desired: set<Tag>): (r: set<Tag>)
    ensures r <= desired && r !! previous
    ensures forall t :: t in desired && t !in previous ==> t in r
  {
    desired - previous
  }

  /** No two tags of the set share a key. */
  predicate UniqueKeys(tags: set<Tag>) {
    forall t, u :: t in tags && u in tags && t.key == u.key ==> t == u
  }

  function KeysOf(tags: set<Tag>): set<string> {
    set t | t in tags :: t.key
  }

  /** The untag request names the resource and carries only the keys of the tags. */
  function ToUntagRequest(resourceArn: NullableString, tags: set<Tag>): (r: UntagRequest)
    ensures r.resourceArn == resourceArn
    ensures forall t :: t in tags ==> t.key in r.tagKeys
    ensures forall k :: k in r.tagKeys ==> exists t :: t in tags && t.key == k
  {
    UntagRequest(resourceArn, KeysOf(tags))
  }

  /**
   Collecting the tags into a key-to-value map; like `Collectors.toMap`, this
   fails when two tags share a key.
   */
  function TagsToSdk(tags: set<Tag>): (r: Result<map<string, string>, ErrorCode>)
    ensures r.Success? <==> UniqueKeys(tags)
    ensures r.Success? ==> r.value.Keys == KeysOf(tags)
    ensures r.Success? ==> forall t :: t in tags ==> r.value[t.key] == t.value
    ensures r.Failure? ==> r.error == InternalFailure
  {
    if UniqueKeys(tags) then
      Success(map t | t in tags :: t.key := t.value)
    else
      Failure(InternalFailure)
  }

  function ToTagRequest(resourceArn: NullableString, tags: set<Tag>): (r: Result<TagRequest, ErrorCode>)
    ensures r.Success? <==> UniqueKeys(tags)
    ensures r.Success? ==> r.value.resourceArn == resourceArn
    ensures r.Success? ==> r.value.tags.Keys == KeysOf(tags)
    ensures r.Success? ==> forall t :: t in tags ==> t.key in r.value.tags && r.value.tags[t.key] == t.value
    ensures r.Failure? ==> r.error == InternalFailure
  {
    match TagsToSdk(tags)
    case Success(m) => Success(TagRequest(resourceArn, m))
    case Failure(e) => Failure(e)
  }

  /** The untag step: one untag call for the desired group when some tag is to go, else nothing. */
  function UnTagResource(respond: Call -> Reply, desired: ResourceModel, tagsToRemove: set<Tag>, progress: Event): (s: Step)
    ensures tagsToRemove == {} ==> s == Step([], progress)
    ensures tagsToRemove != {} ==>
              && s.issued == [UntagGroup(UntagRequest(desired.userHierarchyGroupArn, KeysOf(tagsToRemove)))]
              && s.event == (if respond(s.issued[0]).Ok? then InProgress(desired) else Failed(respond(s.issued[0]).code))
  {
    if |tagsToRemove| > 0 then
      Invoke(respond, UntagGroup(ToUntagRequest(desired.userHierarchyGroupArn, tagsToRemove)), desired)
    else
      Step([], progress)
  }

  /**
   The tag step: one tag call for the desired group when some tag is to be
   added, else nothing; a failure building the request stops before any call.
   */
  function TagResource(respond: Call -> Reply, desired: ResourceModel, tagsToAdd: set<Tag>, progress: Event): (s: Step)
    ensures tagsToAdd == {} ==> s == Step([], progress)
    ensures tagsToAdd != {} && !UniqueKeys(tagsToAdd) ==> s == Step([], Failed(InternalFailure))
    ensures tagsToAdd != {} && UniqueKeys(tagsToAdd) ==>
              && |s.issued| == 1 && s.issued[0].TagGroup?
              && s.issued[0].tagRequest.resourceArn == desired.userHierarchyGroupArn
              && s.issued[0].tagRequest.tags.Keys == KeysOf(tagsToAdd)
              && (forall t :: t in tagsToAdd ==> s.issued[0].tagRequest.tags[t.key] == t.value)
              && s.event == (if respond(s.issued[0]).Ok? then InProgress(desired) else Failed(respond(s.issued[0]).code))
  {
    if |tagsToAdd| > 0 then
      match ToTagRequest(desired.userHierarchyGroupArn, tagsToAdd)
      case Success(req) => Invoke(respond, TagGroup(req), desired)
      case Failure(e) => Step([], Failed(e))
    else
      Step([], progress)
  }

  /** A tag held in both states is neither removed nor added; every other tag is in exactly one of the two. */
  lemma TagDiffPartition(previous: set<Tag>, desired: set<Tag>, t: Tag)
    ensures t in previous && t in desired ==> t !in TagsToRemove(previous, desired) && t !in TagsToAdd(previous, desired)
    ensures t in TagsToRemove(previous, desired) <==> t in previous && t !in desired
    ensures t in TagsToAdd(previous, desired) <==> t in desired && t !in previous
    ensures TagsToRemove(previous, desired) !! TagsToAdd(previous, desired)
  {
  }

  /** Removing the removals and adding the additions turns the previous tag set into the desired one. */
  lemma TagDiffConverges(previous: set<Tag>, desired: set<Tag>)
    ensures (previous - TagsToRemove(previous, desired)) + TagsToAdd(previous, desired) == desired
  {
  }

  /**
   Neither step issues a call when its set is empty, and each issues exactly
   one when it is not: a summary, in one place, of what the contracts of
   UnTagResource and TagResource state about the calls.
   */
  lemma TagStepsCallIffNonEmpty(respond: Call -> Reply, desired: ResourceModel, tags: set<Tag>, progress: Event)
    requires UniqueKeys(tags)
    ensures tags == {} ==> UnTagResource(respond, desired, tags, progress) == Step([], progress)
    ensures tags == {} ==> TagResource(respond, desired, tags, progress) == Step([], progress)
    ensures tags != {} ==> UnTagResource(respond, desired, tags, progress).issued
                           == [UntagGroup(UntagRequest(desired.userHierarchyGroupArn, KeysOf(tags)))]
    ensures tags != {} ==> |TagResource(respond, desired, tags, progress).issued| == 1
    ensures tags != {} ==> var c := TagResource(respond, desired, tags, progress).issued[0];
                           c.TagGroup? && c.tagRequest.resourceArn == desired.userHierarchyGroupArn
                           && c.tagRequest.tags.Keys == KeysOf(tags)
  {
  }

  /** Subsets of a set with unique keys have unique keys. */
  lemma UniqueKeysSubset(small: set<Tag>, large: set<Tag>)
    requires small <= large && UniqueKeys(large)
    ensures UniqueKeys(small)
  {
  }

  /**
   With no duplicate keys on either side, the tag request built from the
   additions never fails.
   */
  lemma TagRequestForAdditionsSucceeds(resourceArn: NullableString, previous: set<Tag>, desired: set<Tag>)
    requires UniqueKeys(desired)
    ensures ToTagRequest(resourceArn, TagsToAdd(previous, desired)).Success?
  {
    UniqueKeysSubset(TagsToAdd(previous, desired), desired);
  }

  /**
   A changed value for a kept key is a removal of the old pair and an addition
   of the new one: the key is in the untag request and the tag request maps it
   to the new value.
   */
  lemma ValueChangeIsRemoveAndAdd(resourceArn: NullableString, previous: set<Tag>, desired: set<Tag>, key: string, oldValue: string, newValue: string)
    requires UniqueKeys(previous) && UniqueKeys(desired)
    requires Tag(key, oldValue) in previous && Tag(key, newValue) in desired && oldValue != newValue
    ensures key in ToUntagRequest(resourceArn, TagsToRemove(previous, desired)).tagKeys
    ensures ToTagRequest(resourceArn, TagsToAdd(previous, desired)).Success?
    ensures ToTagRequest(resourceArn, TagsToAdd(previous, desired)).value.tags[key] == newValue
  {
    TagRequestForAdditionsSucceeds(resourceArn, previous, desired);
    assert Tag(key, oldValue) in TagsToRemove(previous, desired);
    assert Tag(key, newValue) in TagsToAdd(previous, desired);
  }

  /** The service's tag store after an untag request: the named keys are gone. */
  function ApplyUntag(store: map<string, string>, req: UntagRequest): map<string, string> {
    store - req.tagKeys
  }

  /** The service's tag store after a tag request: the given keys now hold the given values. */
  function ApplyTag(store: map<string, string>, req: TagRequest): map<string, string> {
    store + req.tags
  }

  /** `store` holds exactly the tags of the set, each key mapped to its tag's value. */
  ghost predicate Holds(store: map<string, string>, tags: set<Tag>) {
    store.Keys == KeysOf(tags) && forall t :: t in tags ==> store[t.key] == t.value
  }

  /** The convergence argument, on stores described by the tags they hold. */
  lemma StoreConverges(previous: set<Tag>, desired: set<Tag>, before: map<string, string>, untagKeys: set<string>, tagged: map<string, string>)
    requires UniqueKeys(previous) && UniqueKeys(desired)
    requires Holds(before, previous)
    requires untagKeys == KeysOf(previous - desired)
    requires Holds(tagged, desired - previous)
    ensures Holds((before - untagKeys) + tagged, desired)
  {
    var after := (before - untagKeys) + tagged;
    forall t | t in desired
      ensures t.key in after && after[t.key] == t.value
    {
      if t in previous {
        assert t.key !in untagKeys;
        assert t.key !in tagged.Keys;
      } else {
        assert t in desired - previous;
      }
    }
    forall k | k in after
      ensures k in KeysOf(desired)
    {
      if k !in tagged.Keys {
        var t :| t in previous && t.key == k;
        assert t in desired;
      }
    }
  }

  /** A store holding a set with unique keys is determined by the set. */
  lemma HoldsUnique(a: map<string, string>, b: map<string, string>, tags: set<Tag>)
    requires Holds(a, tags) && Holds(b, tags)
    ensures a == b
  {
    forall k | k in a
      ensures a[k] == b[k]
    {
      var t :| t in tags && t.key == k;
    }
  }

  /**
   Untagging the removals and then tagging the additions, in the order of the
   disabled chain, takes a store holding the previous tags to one holding
   exactly the desired tags.
   */
  lemma UntagThenTagConverges(resourceArn: NullableString, previous: set<Tag>, desired: set<Tag>)
    requires UniqueKeys(previous) && UniqueKeys(desired)
    ensures TagsToSdk(previous).Success? && TagsToSdk(desired).Success?
    ensures ToTagRequest(resourceArn, TagsToAdd(previous, desired)).Success?
    ensures ApplyTag(ApplyUntag(TagsToSdk(previous).value, ToUntagRequest(resourceArn, TagsToRemove(previous, desired))),
                     ToTagRequest(resourceArn, TagsToAdd(previous, desired)).value)
            == TagsToSdk(desired).value
  {
    TagRequestForAdditionsSucceeds(resourceArn, previous, desired);
    var before := TagsToSdk(previous).value;
    var untag := ToUntagRequest(resourceArn, TagsToRemove(previous, desired));
    var tag := ToTagRequest(resourceArn, TagsToAdd(previous, desired)).value;
    var goal := TagsToSdk(desired).value;
    StoreConverges(previous, desired, before, untag.tagKeys, tag.tags);
    HoldsUnique(ApplyTag(ApplyUntag(before, untag), tag), goal, desired);
  }

  /** The service's tag store after one call; calls other than untag and tag leave it alone. */
  function ApplyCall(store: map<string, string>, c: Call): map<string, string> {
    match c
    case UntagGroup(req) => ApplyUntag(store, req)
    case TagGroup(req) => ApplyTag(store, req)
    case _ => store
  }

  /** The service's tag store after a sequence of calls, applied in order. */
  function ApplyCalls(store: map<string, string>, calls: seq<Call>): map<string, string>
    decreases |calls|
  {
    if |calls| == 0 then store else ApplyCalls(ApplyCall(store, calls[0]), calls[1..])
  }

  /**
   The untag step followed by the tag step, chained as in the disabled lines
   of the handler: when the chain ends in progress, the calls it issued take a
   store holding the previous tags to one holding exactly the desired tags.
   */
  lemma TagStepsConverge(respond: Call -> Reply, desired: ResourceModel, previousTags: set<Tag>, desiredTags: set<Tag>, progress: Event)
    requires UniqueKeys(previousTags) && UniqueKeys(desiredTags)
    requires progress.InProgress?
    ensures TagsToSdk(previousTags).Success? && TagsToSdk(desiredTags).Success?
    ensures var s := Then(UnTagResource(respond, desired, TagsToRemove(previousTags, desiredTags), progress),
                          e => TagResource(respond, desired, TagsToAdd(previousTags, desiredTags), e));
            s.event.InProgress? ==> ApplyCalls(TagsToSdk(previousTags).value, s.issued) == TagsToSdk(desiredTags).value
  {
    var arn := desired.userHierarchyGroupArn;
    var remove := TagsToRemove(previousTags, desiredTags);
    var add := TagsToAdd(previousTags, desiredTags);
    UntagThenTagConverges(arn, previousTags, desiredTags);
    TagRequestForAdditionsSucceeds(arn, previousTags, desiredTags);
    var before := TagsToSdk(previousTags).value;
    var u := UnTagResource(respond, desired, remove, progress);
    var s := Then(u, e => TagResource(respond, desired, add, e));
    if s.event.InProgress? {
      var t := TagResource(respond, desired, add, u.event);
      assert s.issued == u.issued + t.issued;
      var mid := ApplyUntag(before, ToUntagRequest(arn, remove));
      UntagStepApplies(respond, desired, remove, progress, before);
      TagStepApplies(respond, desired, add, u.event, mid);
      ApplyCallsAppend(before, u.issued, t.issued);
    }
  }

  /** The calls the untag step issues act on a store as the untag request it builds (none when nothing is removed). */
  lemma UntagStepApplies(respond: Call -> Reply, desired: ResourceModel, tagsToRemove: set<Tag>, progress: Event, store: map<string, string>)
    ensures ApplyCalls(store, UnTagResource(respond, desired, tagsToRemove, progress).issued)
            == ApplyUntag(store, ToUntagRequest(desired.userHierarchyGroupArn, tagsToRemove))
  {
    if tagsToRemove == {} {
      assert ToUntagRequest(desired.userHierarchyGroupArn, tagsToRemove).tagKeys == {};
    }
  }

  /** The calls the tag step issues act on a store as the tag request it builds (none when nothing is added). */
  lemma TagStepApplies(respond: Call -> Reply, desired: ResourceModel, tagsToAdd: set<Tag>, progress: Event, store: map<string, string>)
    requires UniqueKeys(tagsToAdd)
    ensures ToTagRequest(desired.userHierarchyGroupArn, tagsToAdd).Success?
    ensures ApplyCalls(store, TagResource(respond, desired, tagsToAdd, progress).issued)
            == ApplyTag(store, ToTagRequest(desired.userHierarchyGroupArn, tagsToAdd).value)
  {
    var req := ToTagRequest(desired.userHierarchyGroupArn, tagsToAdd).value;
    if tagsToAdd == {} {
      assert req.tags == map[];
      assert ApplyTag(store, req) == store;
    }
  }

  /** Applying two runs of calls one after the other is applying their concatenation. */
  lemma {:induction false} ApplyCallsAppend(store: map<string, string>, first: seq<Call>, second: seq<Call>)
    ensures ApplyCalls(store, first + second) == ApplyCalls(ApplyCalls(store, first), second)
    decreases |first|
  {
    if |first| > 0 {
      assert (first + second)[1..] == first[1..] + second;
      ApplyCallsAppend(ApplyCall(store, first[0]), first[1..], second);
    } else {
      assert first + second == second;
    }
  }

  /** The tag difference of the worked example {A:1, B:2} to {B:2, C:3}. */
  lemma TagDiffExample()
    ensures TagsToAdd({Tag("A", "1"), Tag("B", "2")}, {Tag("B", "2"), Tag("C", "3")}) == {Tag("C", "3")}
    ensures TagsToRemove({Tag("A", "1"), Tag("B", "2")}, {Tag("B", "2"), Tag("C", "3")}) == {Tag("A", "1")}
  {
  }
}
