/** `check_all_groups_are_sorted`: flag every group whose pins are not in Python string
    order, and on request replace each flagged group by its sorted pins. */
module SortRule {
  import opened Common
  import opened OrderedTable
  import opened StringOrder
  import opened Config
  import opened Document
  import opened Checks

  /** `unsorted` after the detection loop over `groups`. */
  function Unsorted(groups: Table<seq<string>>): (r: Table<seq<string>>)
    ensures DistinctKeys(r)
    ensures forall k :: k in Keys(r) ==> k in Keys(groups)
  {
    if groups == [] then []
    else
      var init := groups[..|groups| - 1];
      var last := groups[|groups| - 1];
      var prev := Unsorted(init);
      assert Keys(groups) == Keys(init) + [last.0];
      if last.1 != SortStrings(last.1) then
        PutKeys(prev, last.0, last.1);
        PutDistinct(prev, last.0, last.1);
        Put(prev, last.0, last.1)
      else prev
  }

  /** Reference definition: the groups that are not sorted, in group order. */
  ghost function UnsortedGroups(groups: Table<seq<string>>): Table<seq<string>>
  {
    if groups == [] then []
    else
      var last := groups[|groups| - 1];
      UnsortedGroups(groups[..|groups| - 1]) + (if Sorted(last.1) then [] else [last])
  }

  /** The detection loop. */
  method CollectUnsorted(groups: Table<seq<string>>) returns (unsorted: Table<seq<string>>)
    ensures unsorted == Unsorted(groups)
  {
    unsorted := [];
    var i := 0;
    while i < |groups|
      invariant 0 <= i <= |groups|
      invariant unsorted == Unsorted(groups[..i])
    {
      var (name, group) := groups[i];
      if group != SortStrings(group) {
        unsorted := Put(unsorted, name, group);
      }
      assert groups[..i + 1][..i] == groups[..i];
      i := i + 1;
    }
    assert groups[..|groups|] == groups;
  }

  /** With distinct group names, the detection loop records exactly the groups that
      are not sorted, with their pins, in group order. */
  lemma {:induction false} UnsortedIsUnsortedGroups(groups: Table<seq<string>>)
    requires DistinctKeys(groups)
    ensures Unsorted(groups) == UnsortedGroups(groups)
  {
    if groups != [] {
      var init := groups[..|groups| - 1];
      var last := groups[|groups| - 1];
      assert DistinctKeys(init);
      UnsortedIsUnsortedGroups(init);
      SortStringsFixesExactlySorted(last.1);
      if !Sorted(last.1) {
        assert last.0 !in Keys(init);
        PutNewAppends(Unsorted(init), last.0, last.1);
      }
    }
  }

  /** The reference table is empty exactly when every group is sorted. */
  lemma {:induction false} UnsortedGroupsEmpty(groups: Table<seq<string>>)
    ensures UnsortedGroups(groups) == [] <==> forall i :: 0 <= i < |groups| ==> Sorted(groups[i].1)
  {
    if groups != [] {
      var init := groups[..|groups| - 1];
      UnsortedGroupsEmpty(init);
      assert forall i :: 0 <= i < |init| ==> init[i] == groups[i];
    }
  }

  /** The rule passes exactly when every group is sorted. */
  lemma SortedPassIff(groups: Table<seq<string>>)
    requires DistinctKeys(groups)
    ensures Unsorted(groups) == [] <==> forall i :: 0 <= i < |groups| ==> Sorted(groups[i].1)
  {
    UnsortedIsUnsortedGroups(groups);
    UnsortedGroupsEmpty(groups);
  }

  /** `sorted`, as the transformation handed to the document. */
  function SortFix(): Transform
  {
    deps => Ok(SortStrings(deps))
  }

  /** The updates the fix loop performs, one per recorded group. */
  function SortUpdates(unsorted: Table<seq<string>>): (u: seq<Update>)
    ensures |u| == |unsorted|
    ensures forall i :: 0 <= i < |u| ==> u[i] == (unsorted[i].0, SortFix())
  {
    seq(|unsorted|, i requires 0 <= i < |unsorted| => (unsorted[i].0, SortFix()))
  }

  /** `check_all_groups_are_sorted(groups, doc, config, fix)`; a group the document does
      not have makes the fix raise after the groups before it were sorted. */
  method CheckAllGroupsAreSorted(groups: Table<seq<string>>, doc: Document, config: Config, fix: bool)
      returns (result: Result<CheckResult>)
    modifies doc
    ensures var unsorted := Unsorted(groups);
            if unsorted == [] then result == Ok(CheckResult(PASSED, [])) && doc.State() == old(doc.State())
            else if !fix then result == Ok(CheckResult(FAILED, unsorted)) && doc.State() == old(doc.State())
            else
              var o := UpdateAll(old(doc.State()), SortUpdates(unsorted));
              doc.State() == o.state &&
              result == if o.error.None? then Ok(CheckResult(FIXED, unsorted)) else Err(o.error.value)
  {
    var unsorted := CollectUnsorted(groups);
    if unsorted != [] {
      if fix {
        var error := UpdateAllGroups(doc, SortUpdates(unsorted));
        if error.Some? {
          return Err(error.value);
        }
        return Ok(CheckResult(FIXED, unsorted));
      }
      return Ok(CheckResult(FAILED, unsorted));
    }
    return Ok(CheckResult(PASSED, []));
  }

  lemma SortUpdatesDistinct(groups: Table<seq<string>>)
    ensures DistinctKeys(SortUpdates(Unsorted(groups)))
    ensures Keys(SortUpdates(Unsorted(groups))) == Keys(Unsorted(groups))
  {
  }

  /** The fix raises exactly when a recorded group is missing from the document;
      otherwise every recorded group reads as the sorted permutation of its old pins,
      and every other group as before. */
  lemma SortFixEffect(groups: Table<seq<string>>, s: DocState, g: string)
    ensures var o := UpdateAll(s, SortUpdates(Unsorted(groups)));
            (o.error.None? <==> forall k :: k in Keys(Unsorted(groups)) ==> GetDependencyArray(s, k).Ok?) &&
            (o.error.None? && g in Keys(Unsorted(groups)) ==>
               var before := GetDependencyArray(s, g).value;
               var after := GetDependencyArray(o.state, g);
               after.Ok? && Sorted(after.value) && multiset(after.value) == multiset(before)) &&
            (g !in Keys(Unsorted(groups)) ==> GetDependencyArray(o.state, g) == GetDependencyArray(s, g))
  {
    var unsorted := Unsorted(groups);
    var updates := SortUpdates(unsorted);
    SortUpdatesDistinct(groups);
    UpdateAllEffect(s, updates);
    if g !in Keys(unsorted) {
      UpdateAllFrame(s, updates, g);
    }
    assert (forall k :: k in Keys(unsorted) ==> GetDependencyArray(s, k).Ok?) <==>
           (forall i :: 0 <= i < |updates| ==> GetDependencyArray(s, updates[i].0).Ok?);
  }

  /** Running the fix a second time on what the first run left changes nothing. */
  lemma SortFixIdempotent(groups: Table<seq<string>>, s: DocState)
    requires UpdateAll(s, SortUpdates(Unsorted(groups))).error.None?
    ensures var o := UpdateAll(s, SortUpdates(Unsorted(groups)));
            UpdateAll(o.state, SortUpdates(Unsorted(groups))) == o
  {
    var updates := SortUpdates(Unsorted(groups));
    var o := UpdateAll(s, updates);
    SortUpdatesDistinct(groups);
    UpdateAllEffect(s, updates);
    forall i | 0 <= i < |updates|
      ensures GetDependencyArray(o.state, updates[i].0).Ok?
      ensures updates[i].1(GetDependencyArray(o.state, updates[i].0).value) == GetDependencyArray(o.state, updates[i].0)
    {
      SortStringsIdempotent(GetDependencyArray(s, updates[i].0).value);
    }
    UpdateAllIdentity(o.state, updates);
  }
}
