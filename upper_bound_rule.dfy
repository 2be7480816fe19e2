/** `check_upper_bounds`: flag every pin that has a lower bound and no upper bound,
    and on request rewrite each flagged pin with a synthesised upper bound. */
module UpperBoundRule {
  import opened Common
  import opened OrderedTable
  import opened Config
  import opened UpperBound
  import opened Document
  import opened Checks

  /** `unpinned` after scanning `pins` of group `name`, starting from `acc`. */
  function FlagPins(acc: Table<seq<string>>, name: string, pins: seq<string>): (r: Table<seq<string>>)
    ensures DistinctKeys(acc) ==> DistinctKeys(r)
  {
    if pins == [] then acc
    else
      var prev := FlagPins(acc, name, pins[..|pins| - 1]);
      var pin := pins[|pins| - 1];
      if Flagged(pin) then AppendItem(prev, name, pin) else prev
  }

  /** `unpinned` after the detection loop over `groups`. */
  function Unpinned(groups: Table<seq<string>>): (r: Table<seq<string>>)
    ensures DistinctKeys(r)
  {
    if groups == [] then []
    else
      var last := groups[|groups| - 1];
      FlagPins(Unpinned(groups[..|groups| - 1]), last.0, last.1)
  }

  /** The flagged pins of one list, in order. */
  function FlaggedPins(pins: seq<string>): (r: seq<string>)
    ensures forall x :: x in r <==> x in pins && Flagged(x)
  {
    if pins == [] then []
    else FlaggedPins(pins[..|pins| - 1]) + (if Flagged(pins[|pins| - 1]) then [pins[|pins| - 1]] else [])
  }

  /** Reference definition: each group that has a flagged pin, with its flagged pins. */
  function FlaggedGroups(groups: Table<seq<string>>): (r: Table<seq<string>>)
    ensures forall k :: k in Keys(r) ==> k in Keys(groups)
  {
    if groups == [] then []
    else
      var last := groups[|groups| - 1];
      var init := groups[..|groups| - 1];
      var fs := FlaggedPins(last.1);
      assert Keys(groups) == Keys(init) + [last.0];
      KeysAppend(FlaggedGroups(init), if fs == [] then [] else [(last.0, fs)]);
      FlaggedGroups(init) + (if fs == [] then [] else [(last.0, fs)])
  }

  /** The detection loop. */
  method CollectUnpinned(groups: Table<seq<string>>) returns (unpinned: Table<seq<string>>)
    ensures unpinned == Unpinned(groups)
  {
    unpinned := [];
    var i := 0;
    while i < |groups|
      invariant 0 <= i <= |groups|
      invariant unpinned == Unpinned(groups[..i])
    {
      var (name, pins) := groups[i];
      var j := 0;
      while j < |pins|
        invariant 0 <= j <= |pins|
        invariant unpinned == FlagPins(Unpinned(groups[..i]), name, pins[..j])
      {
        if Flagged(pins[j]) {
          unpinned := AppendItem(unpinned, name, pins[j]);
        }
        assert pins[..j + 1][..j] == pins[..j];
        j := j + 1;
      }
      assert pins[..|pins|] == pins;
      assert groups[..i + 1][..i] == groups[..i];
      i := i + 1;
    }
    assert groups[..|groups|] == groups;
  }

  /** Scanning a group not yet recorded adds one entry holding its flagged pins, or
      nothing when it has none. */
  lemma {:induction false} FlagPinsNew(acc: Table<seq<string>>, name: string, pins: seq<string>)
    requires name !in Keys(acc)
    ensures FlagPins(acc, name, pins) ==
              acc + (if FlaggedPins(pins) == [] then [] else [(name, FlaggedPins(pins))])
  {
    if pins != [] {
      var init := pins[..|pins| - 1];
      var pin := pins[|pins| - 1];
      var prev := FlagPins(acc, name, init);
      FlagPinsNew(acc, name, init);
      if Flagged(pin) {
        assert FlagPins(acc, name, pins) == AppendItem(prev, name, pin);
        assert FlaggedPins(pins) == FlaggedPins(init) + [pin];
        if FlaggedPins(init) == [] {
          assert prev == acc;
          AppendItemNew(acc, name, pin);
        } else {
          assert prev == acc + [(name, FlaggedPins(init))];
          AppendItemLast(acc, name, FlaggedPins(init), pin);
        }
      } else {
        assert FlagPins(acc, name, pins) == prev;
        assert FlaggedPins(pins) == FlaggedPins(init);
      }
    }
  }

  /** With distinct group names, the detection loop records exactly the groups with a
      flagged pin, in group order, each with its flagged pins in order. */
  lemma {:induction false} UnpinnedIsFlaggedGroups(groups: Table<seq<string>>)
    requires DistinctKeys(groups)
    ensures Unpinned(groups) == FlaggedGroups(groups)
  {
    if groups != [] {
      var last := groups[|groups| - 1];
      var init := groups[..|groups| - 1];
      assert DistinctKeys(init);
      UnpinnedIsFlaggedGroups(init);
      assert last.0 !in Keys(init);
      FlagPinsNew(Unpinned(init), last.0, last.1);
    }
  }

  /** Appending one group to the scanned table appends at most one reference entry. */
  lemma FlaggedGroupsSnoc(init: Table<seq<string>>, last: (string, seq<string>))
    ensures FlaggedGroups(init + [last]) ==
              FlaggedGroups(init) + (if FlaggedPins(last.1) == [] then [] else [(last.0, FlaggedPins(last.1))])
  {
    assert (init + [last])[..|init|] == init;
  }

  /** The entry a group has in the reference table. */
  lemma {:induction false} FlaggedGroupsGet(groups: Table<seq<string>>, g: string, pins: seq<string>)
    requires DistinctKeys(groups) && Get(groups, g) == Some(pins)
    ensures Get(FlaggedGroups(groups), g) == if FlaggedPins(pins) == [] then None else Some(FlaggedPins(pins))
  {
    assert groups != [];
    var last := groups[|groups| - 1];
    var init := groups[..|groups| - 1];
    DistinctSnoc(groups);
    var fgi := FlaggedGroups(init);
    FlaggedGroupsSnoc(init, last);
    GetOptionalSnoc(fgi, last.0, FlaggedPins(last.1), g);
    GetAppendNew(init, last.0, last.1, g);
    if g in Keys(init) {
      FlaggedGroupsGet(init, g, pins);
    } else {
      assert g == last.0 && pins == last.1;
    }
  }

  /** Looking up after appending an entry whose list may be empty (and then is left out). */
  lemma GetOptionalSnoc(t: Table<seq<string>>, k: string, xs: seq<string>, g: string)
    ensures Get(t + (if xs == [] then [] else [(k, xs)]), g) ==
              if g in Keys(t) then Get(t, g) else if g == k && xs != [] then Some(xs) else None
  {
    if xs == [] {
      assert t + [] == t;
    } else {
      GetAppendNew(t, k, xs, g);
    }
  }

  /** The reference table is empty exactly when no pin of any group is flagged. */
  lemma {:induction false} FlaggedGroupsEmpty(groups: Table<seq<string>>)
    ensures FlaggedGroups(groups) == [] <==>
              forall i :: 0 <= i < |groups| ==> forall p :: p in groups[i].1 ==> !Flagged(p)
  {
    if groups != [] {
      var last := groups[|groups| - 1];
      var init := groups[..|groups| - 1];
      FlaggedGroupsEmpty(init);
      assert forall i :: 0 <= i < |init| ==> init[i] == groups[i];
      if FlaggedPins(last.1) != [] {
        assert FlaggedPins(last.1)[0] in last.1;
      }
    }
  }

  /** `[rewrite(dep) if dep in pins else dep for dep in deps]`: every dependency equal to
      one of `pins` is rewritten, the others are kept in place, and the first rewrite that
      raises makes the whole list fail. */
  function RewritePins(deps: seq<string>, pins: seq<string>, rewrite: string -> Result<string>): (r: Result<seq<string>>)
    ensures r.Ok? <==> forall d :: d in deps && d in pins ==> rewrite(d).Ok?
    ensures r.Ok? ==> |r.value| == |deps|
    ensures r.Ok? ==> forall i :: 0 <= i < |deps| ==>
              r.value[i] == if deps[i] in pins then rewrite(deps[i]).value else deps[i]
  {
    if deps == [] then Ok([])
    else
      var head := if deps[0] in pins then rewrite(deps[0]) else Ok(deps[0]);
      match head
      case Err(e) => Err(e)
      case Ok(h) =>
        match RewritePins(deps[1..], pins, rewrite)
        case Err(e) => Err(e)
        case Ok(t) => Ok([h] + t)
  }

  /** `fix_fn` applied to a group's list: the pins are rewritten by `_add_upper_bound`. */
  function FixPins(deps: seq<string>, pins: seq<string>, strategy: PinningStrategy): (r: Result<seq<string>>)
    ensures r.Ok? <==> forall d :: d in deps && d in pins ==> AddUpperBound(d, strategy).Ok?
    ensures r.Ok? ==> |r.value| == |deps|
    ensures r.Ok? ==> forall i :: 0 <= i < |deps| ==>
              r.value[i] == if deps[i] in pins then AddUpperBound(deps[i], strategy).value else deps[i]
  {
    RewritePins(deps, pins, pin => AddUpperBound(pin, strategy))
  }

  /** `fix_fn` for one recorded group. */
  function UpperBoundFix(pins: seq<string>, strategy: PinningStrategy): Transform
  {
    deps => FixPins(deps, pins, strategy)
  }

  /** The updates the fix loop performs, one per recorded group. */
  function UpperBoundUpdates(unpinned: Table<seq<string>>, strategy: PinningStrategy): (u: seq<Update>)
    ensures |u| == |unpinned|
    ensures forall i :: 0 <= i < |u| ==> u[i].0 == unpinned[i].0
  {
    seq(|unpinned|, i requires 0 <= i < |unpinned| => (unpinned[i].0, UpperBoundFix(unpinned[i].1, strategy)))
  }

  /** A list none of whose pins is flagged has no flagged pins to report. */
  lemma {:induction false} NoneFlagged(pins: seq<string>)
    requires forall i :: 0 <= i < |pins| ==> !Flagged(pins[i])
    ensures FlaggedPins(pins) == []
  {
    if pins != [] {
      NoneFlagged(pins[..|pins| - 1]);
    }
  }

  /** Rewriting the flagged pins of a list leaves none of its pins flagged. */
  lemma FixPinsUnflags(deps: seq<string>, strategy: PinningStrategy)
    requires FixPins(deps, FlaggedPins(deps), strategy).Ok?
    ensures FlaggedPins(FixPins(deps, FlaggedPins(deps), strategy).value) == []
  {
    var out := FixPins(deps, FlaggedPins(deps), strategy).value;
    forall i | 0 <= i < |out|
      ensures !Flagged(out[i])
    {
      if deps[i] in FlaggedPins(deps) {
        assert deps[i] in deps;
        FixedPinNotFlagged(deps[i], strategy);
      }
    }
    NoneFlagged(out);
  }

  /** `check_upper_bounds(groups, doc, config, fix)`. */
  method CheckUpperBounds(groups: Table<seq<string>>, doc: Document, config: Config, fix: bool)
      returns (result: CheckResult)
    modifies doc
    ensures result.issues == Unpinned(groups)
    ensures result.status == if result.issues == [] then PASSED else if fix then FIXED else FAILED
    ensures doc.State() ==
              if fix then UpdateEach(old(doc.State()), UpperBoundUpdates(result.issues, config.pinningStrategy))
              else old(doc.State())
  {
    var unpinned := CollectUnpinned(groups);
    if unpinned != [] {
      if fix {
        UpdateEachGroup(doc, UpperBoundUpdates(unpinned, config.pinningStrategy));
        return CheckResult(FIXED, unpinned);
      }
      return CheckResult(FAILED, unpinned);
    }
    return CheckResult(PASSED, []);
  }

  /** The rule passes exactly when no pin of any group is flagged. */
  lemma UpperBoundsPassIff(groups: Table<seq<string>>)
    requires DistinctKeys(groups)
    ensures Unpinned(groups) == [] <==>
              forall i :: 0 <= i < |groups| ==> forall p :: p in groups[i].1 ==> !Flagged(p)
  {
    UnpinnedIsFlaggedGroups(groups);
    FlaggedGroupsEmpty(groups);
  }

  /** After a fix run over a document whose group `g` holds the pins the rule scanned:
      when every flagged pin of `g` could be given an upper bound, `g` has no flagged
      pin left; otherwise `g` is left exactly as it was. */
  lemma UpperBoundFixResult(groups: Table<seq<string>>, s: DocState, strategy: PinningStrategy,
                            g: string, pins: seq<string>)
    requires DistinctKeys(groups) && Get(groups, g) == Some(pins)
    requires GetDependencyArray(s, g) == Ok(pins)
    ensures var after := GetDependencyArray(UpdateEach(s, UpperBoundUpdates(Unpinned(groups), strategy)), g);
            after.Ok? &&
            (FixPins(pins, FlaggedPins(pins), strategy).Ok? ==> FlaggedPins(after.value) == []) &&
            (FixPins(pins, FlaggedPins(pins), strategy).Err? ==> after.value == pins)
  {
    var unpinned := Unpinned(groups);
    var updates := UpperBoundUpdates(unpinned, strategy);
    UnpinnedIsFlaggedGroups(groups);
    FlaggedGroupsGet(groups, g, pins);
    UpdateEachEffect(s, updates, g);
    if FlaggedPins(pins) == [] {
      assert g !in Keys(updates);
    } else {
      assert (g, FlaggedPins(pins)) in unpinned;
      var i :| 0 <= i < |unpinned| && unpinned[i] == (g, FlaggedPins(pins));
      assert updates[i].1 == UpperBoundFix(FlaggedPins(pins), strategy);
      if FixPins(pins, FlaggedPins(pins), strategy).Ok? {
        FixPinsUnflags(pins, strategy);
      }
    }
  }
}
