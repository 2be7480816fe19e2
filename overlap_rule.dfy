/** `check_no_overlap_between_core_deps_and_groups`: report every pin of a group other
    than `dependencies` that names a package the core `dependencies` already pin, and on
    request remove those pins from their groups. */
module OverlapRule {
  import opened Common
  import opened OrderedTable
  import opened Requirements
  import opened Config
  import opened Document
  import opened Checks

  /** The name of the core group: it is never reported and never rewritten. */
  const Core := "dependencies"

  /** One turn of the innermost loop: `pin` of group `g` is recorded when it names the
      core package `name`; a pin that does not parse is skipped. */
  function RedundantPin(acc: Table<seq<string>>, name: string, g: string, pin: string): (r: Table<seq<string>>)
    ensures NoEmptyLists(acc) ==> NoEmptyLists(r)
    ensures DistinctKeys(acc) ==> DistinctKeys(r)
  {
    if PinName(pin) == Some(name) then
      assert NoEmptyLists(acc) ==> NoEmptyLists(AppendItem(acc, g, pin)) by {
        if NoEmptyLists(acc) {
          AppendItemKeepsNonEmpty(acc, g, pin);
        }
      }
      AppendItem(acc, g, pin)
    else acc
  }

  /** `redundant_pins` after scanning `pins` of group `g` against core package `name`. */
  function RedundantIn(acc: Table<seq<string>>, name: string, g: string, pins: seq<string>): (r: Table<seq<string>>)
    ensures NoEmptyLists(acc) ==> NoEmptyLists(r)
    ensures DistinctKeys(acc) ==> DistinctKeys(r)
  {
    if pins == [] then acc
    else RedundantPin(RedundantIn(acc, name, g, pins[..|pins| - 1]), name, g, pins[|pins| - 1])
  }

  /** `redundant_pins` after scanning every group other than the core one against core
      package `name`. */
  function RedundantAcross(acc: Table<seq<string>>, name: string, groups: Table<seq<string>>): (r: Table<seq<string>>)
    ensures NoEmptyLists(acc) ==> NoEmptyLists(r)
    ensures DistinctKeys(acc) ==> DistinctKeys(r)
  {
    if groups == [] then acc
    else
      var prev := RedundantAcross(acc, name, groups[..|groups| - 1]);
      var last := groups[|groups| - 1];
      if last.0 == Core then prev else RedundantIn(prev, name, last.0, last.1)
  }

  /** `redundant_pins` after the loop over the core pins `core`; a core pin that does not
      parse is skipped. */
  function RedundantUpTo(core: seq<string>, groups: Table<seq<string>>): (r: Table<seq<string>>)
    ensures NoEmptyLists(r) && DistinctKeys(r)
  {
    if core == [] then []
    else RedundantCore(RedundantUpTo(core[..|core| - 1], groups), core[|core| - 1], groups)
  }

  /** One turn of the loop over the core pins. */
  function RedundantCore(acc: Table<seq<string>>, corePin: string, groups: Table<seq<string>>): (r: Table<seq<string>>)
    ensures NoEmptyLists(acc) ==> NoEmptyLists(r)
    ensures DistinctKeys(acc) ==> DistinctKeys(r)
  {
    match PinName(corePin)
    case None => acc
    case Some(name) => RedundantAcross(acc, name, groups)
  }

  /** `redundant_pins` after the detection loop; `groups["dependencies"]` raises when
      there is no core group. */
  function Redundant(groups: Table<seq<string>>): (r: Result<Table<seq<string>>>)
    ensures r.Err? <==> Core !in Keys(groups)
    ensures r.Err? ==> r.error == MissingKey(Core)
  {
    match Get(groups, Core)
    case None => Err(MissingKey(Core))
    case Some(core) => Ok(RedundantUpTo(core, groups))
  }

  /** The body of the innermost loop. */
  method CollectPin(acc: Table<seq<string>>, name: string, g: string, pin: string)
      returns (redundant: Table<seq<string>>)
    ensures redundant == RedundantPin(acc, name, g, pin)
  {
    redundant := acc;
    if PinName(pin) == Some(name) {
      redundant := AppendItem(redundant, g, pin);
    }
  }

  /** The innermost detection loop: the pins of group `g` against core package `name`. */
  method CollectIn(acc: Table<seq<string>>, name: string, g: string, pins: seq<string>)
      returns (redundant: Table<seq<string>>)
    ensures redundant == RedundantIn(acc, name, g, pins)
  {
    redundant := acc;
    var k := 0;
    while k < |pins|
      invariant 0 <= k <= |pins|
      invariant redundant == RedundantIn(acc, name, g, pins[..k])
    {
      redundant := CollectPin(redundant, name, g, pins[k]);
      assert pins[..k + 1][..k] == pins[..k];
      k := k + 1;
    }
    assert pins[..|pins|] == pins;
  }

  /** The loop over the groups for one core package `name`, skipping the core group. */
  method CollectAcross(acc: Table<seq<string>>, name: string, groups: Table<seq<string>>)
      returns (redundant: Table<seq<string>>)
    ensures redundant == RedundantAcross(acc, name, groups)
  {
    redundant := acc;
    var i := 0;
    while i < |groups|
      invariant 0 <= i <= |groups|
      invariant redundant == RedundantAcross(acc, name, groups[..i])
    {
      if groups[i].0 != Core {
        redundant := CollectIn(redundant, name, groups[i].0, groups[i].1);
      }
      assert groups[..i + 1][..i] == groups[..i];
      i := i + 1;
    }
    assert groups[..|groups|] == groups;
  }

  /** One core pin: skipped when it does not parse, else scanned for across the groups. */
  method CollectCore(acc: Table<seq<string>>, corePin: string, groups: Table<seq<string>>)
      returns (redundant: Table<seq<string>>)
    ensures redundant == RedundantCore(acc, corePin, groups)
  {
    redundant := acc;
    var coreName := PinName(corePin);
    if coreName.Some? {
      redundant := CollectAcross(acc, coreName.value, groups);
    }
  }

  /** The loop over the core pins. */
  method CollectUpTo(core: seq<string>, groups: Table<seq<string>>) returns (redundant: Table<seq<string>>)
    ensures redundant == RedundantUpTo(core, groups)
  {
    redundant := [];
    var c := 0;
    while c < |core|
      invariant 0 <= c <= |core|
      invariant redundant == RedundantUpTo(core[..c], groups)
    {
      redundant := CollectCore(redundant, core[c], groups);
      assert core[..c + 1][..c] == core[..c] && core[..c + 1][c] == core[c];
      c := c + 1;
    }
    assert core[..|core|] == core;
  }

  /** The detection loops; `groups["dependencies"]` raises when there is no core group. */
  method CollectRedundant(groups: Table<seq<string>>) returns (r: Result<Table<seq<string>>>)
    ensures r == Redundant(groups)
  {
    var found := Get(groups, Core);
    if found.None? {
      return Err(MissingKey(Core));
    }
    var redundant := CollectUpTo(found.value, groups);
    return Ok(redundant);
  }

  /** `[dep for dep in deps if dep not in pins]`. */
  function Without(deps: seq<string>, pins: seq<string>): (r: seq<string>)
    ensures forall x :: x in r <==> x in deps && x !in pins
    ensures |r| <= |deps|
  {
    if deps == [] then []
    else (if deps[0] in pins then [] else [deps[0]]) + Without(deps[1..], pins)
  }

  /** Filtering keeps the order of what it keeps: it distributes over concatenation. */
  lemma {:induction false} WithoutConcat(a: seq<string>, b: seq<string>, pins: seq<string>)
    ensures Without(a + b, pins) == Without(a, pins) + Without(b, pins)
  {
    if a != [] {
      assert (a + b)[0] == a[0];
      assert (a + b)[1..] == a[1..] + b;
      WithoutConcat(a[1..], b, pins);
    } else {
      assert a + b == b;
    }
  }

  /** Filtering twice is filtering once. */
  lemma {:induction false} WithoutIdempotent(deps: seq<string>, pins: seq<string>)
    ensures Without(Without(deps, pins), pins) == Without(deps, pins)
  {
    if deps != [] {
      WithoutIdempotent(deps[1..], pins);
      var head: seq<string> := if deps[0] in pins then [] else [deps[0]];
      WithoutConcat(head, Without(deps[1..], pins), pins);
      assert Without(head, pins) == head;
    }
  }

  /** The removal lambda handed to the document for one recorded group. */
  function RemovalFix(pins: seq<string>): Transform
  {
    deps => Ok(Without(deps, pins))
  }

  /** The updates the fix loop performs, one per recorded group. */
  function RemovalUpdates(redundant: Table<seq<string>>): (u: seq<Update>)
    ensures |u| == |redundant|
    ensures forall i :: 0 <= i < |u| ==> u[i] == (redundant[i].0, RemovalFix(redundant[i].1))
  {
    seq(|redundant|, i requires 0 <= i < |redundant| => (redundant[i].0, RemovalFix(redundant[i].1)))
  }

  /** `check_no_overlap_between_core_deps_and_groups(groups, doc, config, fix)`. */
  method CheckNoOverlap(groups: Table<seq<string>>, doc: Document, config: Config, fix: bool)
      returns (result: Result<CheckResult>)
    modifies doc
    ensures Redundant(groups).Err? ==> result == Err(MissingKey(Core)) && doc.State() == old(doc.State())
    ensures Redundant(groups).Ok? ==>
              var redundant := Redundant(groups).value;
              if redundant == [] then result == Ok(CheckResult(PASSED, [])) && doc.State() == old(doc.State())
              else if !fix then result == Ok(CheckResult(FAILED, redundant)) && doc.State() == old(doc.State())
              else
                var o := UpdateAll(old(doc.State()), RemovalUpdates(redundant));
                doc.State() == o.state &&
                result == if o.error.None? then Ok(CheckResult(FIXED, redundant)) else Err(o.error.value)
  {
    var found := CollectRedundant(groups);
    if found.Err? {
      return Err(found.error);
    }
    var redundant := found.value;
    if redundant != [] {
      if fix {
        var error := UpdateAllGroups(doc, RemovalUpdates(redundant));
        if error.Some? {
          return Err(error.value);
        }
        return Ok(CheckResult(FIXED, redundant));
      }
      return Ok(CheckResult(FAILED, redundant));
    }
    return Ok(CheckResult(PASSED, []));
  }

  // What each level of the loops records, level by level and then in closed form; the
  // closed forms hold for any naming function `nameOf` (`split_pin(pin)[0]`).

  ghost predicate InHit(nameOf: string -> Option<string>, name: string, group: string, pins: seq<string>,
                        g: string, p: string)
  {
    pins != [] &&
    (InHit(nameOf, name, group, pins[..|pins| - 1], g, p) ||
     (nameOf(pins[|pins| - 1]) == Some(name) && g == group && p == pins[|pins| - 1]))
  }

  ghost predicate AcrossHit(nameOf: string -> Option<string>, name: string, groups: Table<seq<string>>,
                            g: string, p: string)
  {
    groups != [] &&
    (AcrossHit(nameOf, name, groups[..|groups| - 1], g, p) ||
     (groups[|groups| - 1].0 != Core &&
      InHit(nameOf, name, groups[|groups| - 1].0, groups[|groups| - 1].1, g, p)))
  }

  ghost predicate CoreHit(nameOf: string -> Option<string>, core: seq<string>, groups: Table<seq<string>>,
                          g: string, p: string)
  {
    core != [] &&
    (CoreHit(nameOf, core[..|core| - 1], groups, g, p) ||
     (nameOf(core[|core| - 1]).Some? && AcrossHit(nameOf, nameOf(core[|core| - 1]).value, groups, g, p)))
  }

  /** `p` is a pin of a group named `g`. */
  ghost predicate InGroup(groups: Table<seq<string>>, g: string, p: string)
  {
    exists i :: 0 <= i < |groups| && groups[i].0 == g && p in groups[i].1
  }

  /** Reference definition: `p` is a pin of a non-core group `g` that names the same
      package as some core pin. */
  ghost predicate HasOverlap(nameOf: string -> Option<string>, core: seq<string>, groups: Table<seq<string>>,
                             g: string, p: string)
  {
    g != Core && InGroup(groups, g, p) && nameOf(p).Some? && exists c :: c in core && nameOf(c) == nameOf(p)
  }

  lemma {:induction false} RedundantInRecorded(acc: Table<seq<string>>, name: string, group: string,
                                               pins: seq<string>, g: string, p: string)
    requires NoEmptyLists(acc)
    ensures Recorded(RedundantIn(acc, name, group, pins), g, p) <==>
              Recorded(acc, g, p) || InHit(PinName, name, group, pins, g, p)
  {
    if pins != [] {
      var prev := RedundantIn(acc, name, group, pins[..|pins| - 1]);
      RedundantInRecorded(acc, name, group, pins[..|pins| - 1], g, p);
      if PinName(pins[|pins| - 1]) == Some(name) {
        AppendItemKeepsNonEmpty(prev, group, pins[|pins| - 1]);
      }
    }
  }

  lemma {:induction false} RedundantAcrossRecorded(acc: Table<seq<string>>, name: string,
                                                   groups: Table<seq<string>>, g: string, p: string)
    requires NoEmptyLists(acc)
    ensures Recorded(RedundantAcross(acc, name, groups), g, p) <==>
              Recorded(acc, g, p) || AcrossHit(PinName, name, groups, g, p)
  {
    if groups != [] {
      var last := groups[|groups| - 1];
      RedundantAcrossRecorded(acc, name, groups[..|groups| - 1], g, p);
      if last.0 != Core {
        RedundantInRecorded(RedundantAcross(acc, name, groups[..|groups| - 1]), name, last.0, last.1, g, p);
      }
    }
  }

  lemma {:induction false} RedundantUpToRecorded(core: seq<string>, groups: Table<seq<string>>, g: string, p: string)
    ensures Recorded(RedundantUpTo(core, groups), g, p) <==> CoreHit(PinName, core, groups, g, p)
  {
    if core != [] {
      RedundantUpToRecorded(core[..|core| - 1], groups, g, p);
      var c := core[|core| - 1];
      if PinName(c).Some? {
        RedundantAcrossRecorded(RedundantUpTo(core[..|core| - 1], groups), PinName(c).value, groups, g, p);
      }
    } else {
      assert Get(RedundantUpTo(core, groups), g) == None;
    }
  }

  lemma {:induction false} InHitIff(nameOf: string -> Option<string>, name: string, group: string,
                                    pins: seq<string>, g: string, p: string)
    ensures InHit(nameOf, name, group, pins, g, p) <==> g == group && p in pins && nameOf(p) == Some(name)
  {
    if pins != [] {
      var init := pins[..|pins| - 1];
      InHitIff(nameOf, name, group, init, g, p);
      assert pins == init + [pins[|pins| - 1]];
    }
  }

  lemma {:induction false} AcrossHitIff(nameOf: string -> Option<string>, name: string,
                                        groups: Table<seq<string>>, g: string, p: string)
    ensures AcrossHit(nameOf, name, groups, g, p) <==> g != Core && nameOf(p) == Some(name) && InGroup(groups, g, p)
  {
    if groups != [] {
      var init := groups[..|groups| - 1];
      var last := groups[|groups| - 1];
      AcrossHitIff(nameOf, name, init, g, p);
      InHitIff(nameOf, name, last.0, last.1, g, p);
      if InGroup(groups, g, p) {
        var i :| 0 <= i < |groups| && groups[i].0 == g && p in groups[i].1;
        if i < |groups| - 1 {
          assert init[i] == groups[i];
        }
      }
      if InGroup(init, g, p) {
        var i :| 0 <= i < |init| && init[i].0 == g && p in init[i].1;
        assert groups[i] == init[i];
      }
      if last.0 == g && p in last.1 {
        assert InGroup(groups, g, p);
      }
    } else {
      assert !InGroup(groups, g, p);
    }
  }

  lemma {:induction false} CoreHitIff(nameOf: string -> Option<string>, core: seq<string>,
                                      groups: Table<seq<string>>, g: string, p: string)
    ensures CoreHit(nameOf, core, groups, g, p) <==> HasOverlap(nameOf, core, groups, g, p)
  {
    if core != [] {
      var init := core[..|core| - 1];
      var c := core[|core| - 1];
      CoreHitIff(nameOf, init, groups, g, p);
      assert core == init + [c];
      if nameOf(c).Some? {
        AcrossHitIff(nameOf, nameOf(c).value, groups, g, p);
      }
      if exists d :: d in core && nameOf(d) == nameOf(p) {
        var d :| d in core && nameOf(d) == nameOf(p);
        if d != c {
          assert d in init;
        }
      }
    }
  }

  /** The rule records pin `p` under group `g` exactly when `g` is not the core group,
      `p` is one of its pins and `p` names a package some core pin names. */
  lemma RedundantRecordedIff(groups: Table<seq<string>>, g: string, p: string)
    requires Redundant(groups).Ok?
    ensures Recorded(Redundant(groups).value, g, p) <==> HasOverlap(PinName, Get(groups, Core).value, groups, g, p)
  {
    RedundantUpToRecorded(Get(groups, Core).value, groups, g, p);
    CoreHitIff(PinName, Get(groups, Core).value, groups, g, p);
  }

  /** The core group is never reported. */
  lemma CoreNeverRecorded(groups: Table<seq<string>>)
    requires Redundant(groups).Ok?
    ensures Core !in Keys(Redundant(groups).value)
  {
    var redundant := Redundant(groups).value;
    KeyIffRecorded(redundant, Core);
    if Core in Keys(redundant) {
      var p :| Recorded(redundant, Core, p);
      RedundantRecordedIff(groups, Core, p);
    }
  }

  /** After a successful fix over a document whose group `g` holds `pins`, `g` holds
      `pins` filtered by what was reported under `g` (so, by WithoutConcat, the kept pins
      stay in order), that is exactly its pins that were not reported; the core group is
      never changed. */
  lemma OverlapFixResult(groups: Table<seq<string>>, s: DocState, g: string, pins: seq<string>)
    requires Redundant(groups).Ok?
    requires GetDependencyArray(s, g) == Ok(pins)
    requires UpdateAll(s, RemovalUpdates(Redundant(groups).value)).error.None?
    ensures var after := GetDependencyArray(UpdateAll(s, RemovalUpdates(Redundant(groups).value)).state, g);
            var redundant := Redundant(groups).value;
            after.Ok? &&
            after.value == (if g in Keys(redundant) then Without(pins, Get(redundant, g).value) else pins) &&
            forall x :: x in after.value <==> x in pins && !Recorded(redundant, g, x)
    ensures GetDependencyArray(UpdateAll(s, RemovalUpdates(Redundant(groups).value)).state, Core) ==
              GetDependencyArray(s, Core)
  {
    var redundant := Redundant(groups).value;
    var updates := RemovalUpdates(redundant);
    assert DistinctKeys(updates);
    assert Keys(updates) == Keys(redundant);
    UpdateAllEffect(s, updates);
    CoreNeverRecorded(groups);
    UpdateAllFrame(s, updates, Core);
    if g in Keys(redundant) {
      var i :| 0 <= i < |redundant| && redundant[i].0 == g;
      GetAt(redundant, i);
    } else {
      UpdateAllFrame(s, updates, g);
    }
  }

  /** The rule passes exactly when no pin of a non-core group names a core package. */
  lemma OverlapPassIff(groups: Table<seq<string>>)
    requires Redundant(groups).Ok?
    ensures Redundant(groups).value == [] <==>
              forall g, p :: !HasOverlap(PinName, Get(groups, Core).value, groups, g, p)
  {
    var redundant := Redundant(groups).value;
    if redundant != [] {
      var g := redundant[0].0;
      assert g in Keys(redundant);
      KeyIffRecorded(redundant, g);
      var p :| Recorded(redundant, g, p);
      RedundantRecordedIff(groups, g, p);
    } else {
      forall g, p
        ensures !HasOverlap(PinName, Get(groups, Core).value, groups, g, p)
      {
        RedundantRecordedIff(groups, g, p);
      }
    }
  }
}
