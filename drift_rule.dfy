/** `check_group_overlaps_match`: for every two groups, report each pair of pins that
    name the same package with different text ("drift"). This rule never fixes. */
module DriftRule {
  import opened Common
  import opened OrderedTable
  import opened Requirements
  import opened Config
  import opened Document
  import opened Checks

  /** Two pins drift when both parse, name the same package and differ as text;
      `nameOf` is `split_pin(pin)[0]`, None where it raises. */
  predicate Drifted(nameOf: string -> Option<string>, x: string, q: string)
  {
    nameOf(x).Some? && nameOf(x) == nameOf(q) && x != q
  }

  /** One step of the innermost loop: a drifting pair records each pin under its group. */
  function DriftStep(acc: Table<seq<string>>, a: string, x: string, b: string, q: string): (r: Table<seq<string>>)
    ensures NoEmptyLists(acc) ==> NoEmptyLists(r)
  {
    if Drifted(PinName, x, q) then
      var t := AppendItem(acc, a, x);
      assert NoEmptyLists(acc) ==> NoEmptyLists(AppendItem(t, b, q)) by {
        if NoEmptyLists(acc) {
          AppendItemKeepsNonEmpty(acc, a, x);
          AppendItemKeepsNonEmpty(t, b, q);
        }
      }
      AppendItem(t, b, q)
    else acc
  }

  /** `drift` after pairing pin `x` of group `a` with `pinsB` of group `b`. */
  function DriftRow(acc: Table<seq<string>>, a: string, x: string, b: string, pinsB: seq<string>): (r: Table<seq<string>>)
    ensures NoEmptyLists(acc) ==> NoEmptyLists(r)
  {
    if pinsB == [] then acc
    else DriftStep(DriftRow(acc, a, x, b, pinsB[..|pinsB| - 1]), a, x, b, pinsB[|pinsB| - 1])
  }

  /** `drift` after the product loop over `pinsA` × `pinsB`. */
  function DriftProduct(acc: Table<seq<string>>, a: string, pinsA: seq<string>, b: string, pinsB: seq<string>): (r: Table<seq<string>>)
    ensures NoEmptyLists(acc) ==> NoEmptyLists(r)
  {
    if pinsA == [] then acc
    else DriftRow(DriftProduct(acc, a, pinsA[..|pinsA| - 1], b, pinsB), a, pinsA[|pinsA| - 1], b, pinsB)
  }

  /** `drift` after pairing group `i` with the groups `i + 1 .. j - 1`. */
  function DriftWith(acc: Table<seq<string>>, groups: Table<seq<string>>, i: nat, j: nat): (r: Table<seq<string>>)
    requires i < |groups| && j <= |groups|
    ensures NoEmptyLists(acc) ==> NoEmptyLists(r)
    decreases j
  {
    if j <= i + 1 then acc
    else DriftProduct(DriftWith(acc, groups, i, j - 1), groups[i].0, groups[i].1, groups[j - 1].0, groups[j - 1].1)
  }

  /** `drift` after every pair of groups whose first member is among the first `n`. */
  function DriftUpTo(groups: Table<seq<string>>, n: nat): (r: Table<seq<string>>)
    requires n <= |groups|
    ensures NoEmptyLists(r)
  {
    if n == 0 then []
    else DriftWith(DriftUpTo(groups, n - 1), groups, n - 1, |groups|)
  }

  /** `drift` after the whole `combinations(groups, 2)` loop. */
  function Drift(groups: Table<seq<string>>): Table<seq<string>>
  {
    DriftUpTo(groups, |groups|)
  }

  /** The body of the innermost loop: a pin that does not parse skips the pair. */
  method CollectPair(acc: Table<seq<string>>, a: string, x: string, b: string, q: string)
      returns (drift: Table<seq<string>>)
    ensures drift == DriftStep(acc, a, x, b, q)
  {
    drift := acc;
    var nameX := PinName(x);
    var nameQ := PinName(q);
    if nameX.Some? && nameQ.Some? && nameX == nameQ && x != q {
      drift := AppendItem(drift, a, x);
      drift := AppendItem(drift, b, q);
    }
  }

  /** The innermost detection loop: pin `x` of group `a` against each pin of group `b`. */
  method CollectRow(acc: Table<seq<string>>, a: string, x: string, b: string, pinsB: seq<string>)
      returns (drift: Table<seq<string>>)
    ensures drift == DriftRow(acc, a, x, b, pinsB)
  {
    drift := acc;
    var kb := 0;
    while kb < |pinsB|
      invariant 0 <= kb <= |pinsB|
      invariant drift == DriftRow(acc, a, x, b, pinsB[..kb])
    {
      drift := CollectPair(drift, a, x, b, pinsB[kb]);
      assert pinsB[..kb + 1][..kb] == pinsB[..kb];
      kb := kb + 1;
    }
    assert pinsB[..|pinsB|] == pinsB;
  }

  /** The `product(pinsA, pinsB)` loop for one pair of groups. */
  method CollectProduct(acc: Table<seq<string>>, a: string, pinsA: seq<string>, b: string, pinsB: seq<string>)
      returns (drift: Table<seq<string>>)
    ensures drift == DriftProduct(acc, a, pinsA, b, pinsB)
  {
    drift := acc;
    var ka := 0;
    while ka < |pinsA|
      invariant 0 <= ka <= |pinsA|
      invariant drift == DriftProduct(acc, a, pinsA[..ka], b, pinsB)
    {
      drift := CollectRow(drift, a, pinsA[ka], b, pinsB);
      assert pinsA[..ka + 1][..ka] == pinsA[..ka];
      ka := ka + 1;
    }
    assert pinsA[..|pinsA|] == pinsA;
  }

  /** The detection loops: pairs of groups in `combinations` order, pairs of pins in
      `product` order. */
  method CollectDrift(groups: Table<seq<string>>) returns (drift: Table<seq<string>>)
    ensures drift == Drift(groups)
  {
    drift := [];
    var i := 0;
    while i < |groups|
      invariant 0 <= i <= |groups|
      invariant drift == DriftUpTo(groups, i)
    {
      var j := i + 1;
      while j < |groups|
        invariant i + 1 <= j <= |groups|
        invariant drift == DriftWith(DriftUpTo(groups, i), groups, i, j)
      {
        drift := CollectProduct(drift, groups[i].0, groups[i].1, groups[j].0, groups[j].1);
        j := j + 1;
      }
      i := i + 1;
    }
  }

  /** `check_group_overlaps_match(groups, doc, config, fix)`: the document is never
      changed, whatever `fix` says. */
  method CheckGroupOverlapsMatch(groups: Table<seq<string>>, doc: Document, config: Config, fix: bool)
      returns (result: CheckResult)
    ensures result.issues == Drift(groups)
    ensures result.status == if Drift(groups) == [] then PASSED else FAILED
  {
    var drift := CollectDrift(groups);
    if drift != [] {
      return CheckResult(FAILED, drift);
    }
    return CheckResult(PASSED, []);
  }

  // What each level of the loops records, one (group, pin) at a time: first level by
  // level, following the folds, then in closed form. The closed forms hold for any
  // naming function, so they are stated for a parameter `nameOf`.

  /** The innermost step records `p` under `g`. */
  ghost predicate StepHit(nameOf: string -> Option<string>, a: string, x: string, b: string, q: string,
                          g: string, p: string)
  {
    Drifted(nameOf, x, q) && ((g == a && p == x) || (g == b && p == q))
  }

  ghost predicate RowHit(nameOf: string -> Option<string>, a: string, x: string, b: string, pinsB: seq<string>,
                         g: string, p: string)
  {
    pinsB != [] &&
    (RowHit(nameOf, a, x, b, pinsB[..|pinsB| - 1], g, p) || StepHit(nameOf, a, x, b, pinsB[|pinsB| - 1], g, p))
  }

  ghost predicate ProductHit(nameOf: string -> Option<string>, a: string, pinsA: seq<string>, b: string,
                             pinsB: seq<string>, g: string, p: string)
  {
    pinsA != [] &&
    (ProductHit(nameOf, a, pinsA[..|pinsA| - 1], b, pinsB, g, p) ||
     RowHit(nameOf, a, pinsA[|pinsA| - 1], b, pinsB, g, p))
  }

  ghost predicate PairHit(nameOf: string -> Option<string>, groups: Table<seq<string>>, i: nat, k: nat,
                          g: string, p: string)
    requires i < |groups| && k < |groups|
  {
    ProductHit(nameOf, groups[i].0, groups[i].1, groups[k].0, groups[k].1, g, p)
  }

  ghost predicate WithHit(nameOf: string -> Option<string>, groups: Table<seq<string>>, i: nat, j: nat,
                          g: string, p: string)
    requires i < |groups| && j <= |groups|
    decreases j
  {
    j > i + 1 && (WithHit(nameOf, groups, i, j - 1, g, p) || PairHit(nameOf, groups, i, j - 1, g, p))
  }

  ghost predicate UpToHit(nameOf: string -> Option<string>, groups: Table<seq<string>>, n: nat, g: string, p: string)
    requires n <= |groups|
  {
    n > 0 && (UpToHit(nameOf, groups, n - 1, g, p) || WithHit(nameOf, groups, n - 1, |groups|, g, p))
  }

  /** Reference definition: pin `p` of a group named `g` drifts against a pin of some
      other group. */
  ghost predicate HasDrift(nameOf: string -> Option<string>, groups: Table<seq<string>>, g: string, p: string)
  {
    exists i, k :: 0 <= i < |groups| && 0 <= k < |groups| && i != k &&
      groups[i].0 == g && p in groups[i].1 && exists q :: q in groups[k].1 && Drifted(nameOf, p, q)
  }

  lemma DriftStepRecorded(acc: Table<seq<string>>, a: string, x: string, b: string, q: string, g: string, p: string)
    requires NoEmptyLists(acc)
    ensures Recorded(DriftStep(acc, a, x, b, q), g, p) <==> Recorded(acc, g, p) || StepHit(PinName, a, x, b, q, g, p)
  {
    if Drifted(PinName, x, q) {
      AppendPairRecorded(acc, a, x, b, q, g, p);
    }
  }

  /** Recording `x` under `a` and then `q` under `b`. */
  lemma AppendPairRecorded(acc: Table<seq<string>>, a: string, x: string, b: string, q: string, g: string, p: string)
    requires NoEmptyLists(acc)
    ensures Recorded(AppendItem(AppendItem(acc, a, x), b, q), g, p) <==>
              Recorded(acc, g, p) || (g == a && p == x) || (g == b && p == q)
  {
    AppendItemKeepsNonEmpty(acc, a, x);
    AppendItemKeepsNonEmpty(AppendItem(acc, a, x), b, q);
  }

  lemma {:induction false} DriftRowRecorded(acc: Table<seq<string>>, a: string, x: string, b: string,
                                            pinsB: seq<string>, g: string, p: string)
    requires NoEmptyLists(acc)
    ensures Recorded(DriftRow(acc, a, x, b, pinsB), g, p) <==>
              Recorded(acc, g, p) || RowHit(PinName, a, x, b, pinsB, g, p)
  {
    if pinsB != [] {
      var init := pinsB[..|pinsB| - 1];
      DriftRowRecorded(acc, a, x, b, init, g, p);
      DriftStepRecorded(DriftRow(acc, a, x, b, init), a, x, b, pinsB[|pinsB| - 1], g, p);
    }
  }

  lemma {:induction false} DriftProductRecorded(acc: Table<seq<string>>, a: string, pinsA: seq<string>,
                                                b: string, pinsB: seq<string>, g: string, p: string)
    requires NoEmptyLists(acc)
    ensures Recorded(DriftProduct(acc, a, pinsA, b, pinsB), g, p) <==>
              Recorded(acc, g, p) || ProductHit(PinName, a, pinsA, b, pinsB, g, p)
  {
    if pinsA != [] {
      var init := pinsA[..|pinsA| - 1];
      DriftProductRecorded(acc, a, init, b, pinsB, g, p);
      DriftRowRecorded(DriftProduct(acc, a, init, b, pinsB), a, pinsA[|pinsA| - 1], b, pinsB, g, p);
    }
  }

  lemma {:induction false} DriftWithRecorded(acc: Table<seq<string>>, groups: Table<seq<string>>, i: nat, j: nat,
                                             g: string, p: string)
    requires i < |groups| && j <= |groups| && NoEmptyLists(acc)
    ensures Recorded(DriftWith(acc, groups, i, j), g, p) <==>
              Recorded(acc, g, p) || WithHit(PinName, groups, i, j, g, p)
    decreases j
  {
    if j > i + 1 {
      DriftWithRecorded(acc, groups, i, j - 1, g, p);
      DriftProductRecorded(DriftWith(acc, groups, i, j - 1), groups[i].0, groups[i].1,
                           groups[j - 1].0, groups[j - 1].1, g, p);
    }
  }

  lemma {:induction false} DriftUpToRecorded(groups: Table<seq<string>>, n: nat, g: string, p: string)
    requires n <= |groups|
    ensures Recorded(DriftUpTo(groups, n), g, p) <==> UpToHit(PinName, groups, n, g, p)
  {
    if n > 0 {
      DriftUpToRecorded(groups, n - 1, g, p);
      DriftWithRecorded(DriftUpTo(groups, n - 1), groups, n - 1, |groups|, g, p);
    } else {
      assert Get(DriftUpTo(groups, 0), g) == None;
    }
  }

  lemma {:induction false} RowHitIff(nameOf: string -> Option<string>, a: string, x: string, b: string,
                                     pinsB: seq<string>, g: string, p: string)
    ensures RowHit(nameOf, a, x, b, pinsB, g, p) <==> exists q :: q in pinsB && StepHit(nameOf, a, x, b, q, g, p)
  {
    if pinsB != [] {
      var init := pinsB[..|pinsB| - 1];
      var last := pinsB[|pinsB| - 1];
      RowHitIff(nameOf, a, x, b, init, g, p);
      assert pinsB == init + [last];
      if exists q :: q in pinsB && StepHit(nameOf, a, x, b, q, g, p) {
        var q :| q in pinsB && StepHit(nameOf, a, x, b, q, g, p);
        if q != last {
          assert q in init;
        }
      }
    }
  }

  lemma {:induction false} ProductHitIff(nameOf: string -> Option<string>, a: string, pinsA: seq<string>,
                                         b: string, pinsB: seq<string>, g: string, p: string)
    ensures ProductHit(nameOf, a, pinsA, b, pinsB, g, p) <==>
              exists x, q :: x in pinsA && q in pinsB && StepHit(nameOf, a, x, b, q, g, p)
  {
    if pinsA != [] {
      var init := pinsA[..|pinsA| - 1];
      var last := pinsA[|pinsA| - 1];
      ProductHitIff(nameOf, a, init, b, pinsB, g, p);
      RowHitIff(nameOf, a, last, b, pinsB, g, p);
      assert pinsA == init + [last];
      if exists x, q :: x in pinsA && q in pinsB && StepHit(nameOf, a, x, b, q, g, p) {
        var x, q :| x in pinsA && q in pinsB && StepHit(nameOf, a, x, b, q, g, p);
        if x != last {
          assert x in init;
        }
      }
    }
  }

  lemma {:induction false} WithHitIff(nameOf: string -> Option<string>, groups: Table<seq<string>>, i: nat, j: nat,
                                      g: string, p: string)
    requires i < |groups| && j <= |groups|
    ensures WithHit(nameOf, groups, i, j, g, p) <==> exists k :: i < k < j && PairHit(nameOf, groups, i, k, g, p)
    decreases j
  {
    if j > i + 1 {
      WithHitIff(nameOf, groups, i, j - 1, g, p);
      if exists k :: i < k < j && PairHit(nameOf, groups, i, k, g, p) {
        var k :| i < k < j && PairHit(nameOf, groups, i, k, g, p);
        if k < j - 1 {
          assert exists k :: i < k < j - 1 && PairHit(nameOf, groups, i, k, g, p);
        }
      }
    }
  }

  lemma {:induction false} UpToHitIff(nameOf: string -> Option<string>, groups: Table<seq<string>>, n: nat,
                                      g: string, p: string)
    requires n <= |groups|
    ensures UpToHit(nameOf, groups, n, g, p) <==>
              exists i, k :: 0 <= i < n && i < k < |groups| && PairHit(nameOf, groups, i, k, g, p)
  {
    if n > 0 {
      UpToHitIff(nameOf, groups, n - 1, g, p);
      WithHitIff(nameOf, groups, n - 1, |groups|, g, p);
      if exists i, k :: 0 <= i < n && i < k < |groups| && PairHit(nameOf, groups, i, k, g, p) {
        var i, k :| 0 <= i < n && i < k < |groups| && PairHit(nameOf, groups, i, k, g, p);
        if i < n - 1 {
          assert exists i, k :: 0 <= i < n - 1 && i < k < |groups| && PairHit(nameOf, groups, i, k, g, p);
        }
      }
    }
  }

  /** Some pair of groups reports `p` under `g` exactly when `p` drifts against a pin
      of another group. */
  lemma PairHitIff(nameOf: string -> Option<string>, groups: Table<seq<string>>, g: string, p: string)
    ensures (exists i, k :: 0 <= i < |groups| && i < k < |groups| && PairHit(nameOf, groups, i, k, g, p)) <==>
            HasDrift(nameOf, groups, g, p)
  {
    if exists i, k :: 0 <= i < |groups| && i < k < |groups| && PairHit(nameOf, groups, i, k, g, p) {
      var i, k :| 0 <= i < |groups| && i < k < |groups| && PairHit(nameOf, groups, i, k, g, p);
      PairHitDrifts(nameOf, groups, i, k, g, p);
    }
    if HasDrift(nameOf, groups, g, p) {
      DriftIsPairHit(nameOf, groups, g, p);
    }
  }

  lemma PairHitDrifts(nameOf: string -> Option<string>, groups: Table<seq<string>>, i: nat, k: nat, g: string, p: string)
    requires i < k < |groups| && PairHit(nameOf, groups, i, k, g, p)
    ensures HasDrift(nameOf, groups, g, p)
  {
    ProductHitIff(nameOf, groups[i].0, groups[i].1, groups[k].0, groups[k].1, g, p);
    var x, q :| x in groups[i].1 && q in groups[k].1 && StepHit(nameOf, groups[i].0, x, groups[k].0, q, g, p);
    if g == groups[i].0 && p == x {
      assert q in groups[k].1 && Drifted(nameOf, p, q);
    } else {
      assert x in groups[i].1 && Drifted(nameOf, p, x);
    }
  }

  lemma DriftIsPairHit(nameOf: string -> Option<string>, groups: Table<seq<string>>, g: string, p: string)
    requires HasDrift(nameOf, groups, g, p)
    ensures exists i, k :: 0 <= i < |groups| && i < k < |groups| && PairHit(nameOf, groups, i, k, g, p)
  {
    var i, k :| 0 <= i < |groups| && 0 <= k < |groups| && i != k && groups[i].0 == g && p in groups[i].1 &&
                exists q :: q in groups[k].1 && Drifted(nameOf, p, q);
    var q :| q in groups[k].1 && Drifted(nameOf, p, q);
    if i < k {
      ProductHitIff(nameOf, groups[i].0, groups[i].1, groups[k].0, groups[k].1, g, p);
      assert StepHit(nameOf, groups[i].0, p, groups[k].0, q, g, p);
      assert PairHit(nameOf, groups, i, k, g, p);
    } else {
      ProductHitIff(nameOf, groups[k].0, groups[k].1, groups[i].0, groups[i].1, g, p);
      assert StepHit(nameOf, groups[k].0, q, groups[i].0, p, g, p);
      assert PairHit(nameOf, groups, k, i, g, p);
    }
  }

  /** The rule records pin `p` under group `g` exactly when `p` is a pin of a group named
      `g` that drifts against a pin of another group. */
  lemma DriftRecordedIff(groups: Table<seq<string>>, g: string, p: string)
    ensures Recorded(Drift(groups), g, p) <==> HasDrift(PinName, groups, g, p)
  {
    DriftUpToRecorded(groups, |groups|, g, p);
    UpToHitIff(PinName, groups, |groups|, g, p);
    PairHitIff(PinName, groups, g, p);
  }

  /** Drift is reported on both sides: when `p` of group `i` drifts against `q` of group
      `k`, each is recorded under its own group. */
  lemma DriftBothSides(groups: Table<seq<string>>, i: nat, k: nat, p: string, q: string)
    requires i < |groups| && k < |groups| && i != k
    requires p in groups[i].1 && q in groups[k].1 && Drifted(PinName, p, q)
    ensures Recorded(Drift(groups), groups[i].0, p)
    ensures Recorded(Drift(groups), groups[k].0, q)
  {
    DriftRecordedIff(groups, groups[i].0, p);
    DriftRecordedIff(groups, groups[k].0, q);
    assert Drifted(PinName, q, p);
  }

  /** The rule passes exactly when no pin drifts. */
  lemma DriftPassIff(groups: Table<seq<string>>)
    ensures Drift(groups) == [] <==> forall g, p :: !HasDrift(PinName, groups, g, p)
  {
    var drift := Drift(groups);
    if drift != [] {
      var g := drift[0].0;
      assert g in Keys(drift);
      KeyIffRecorded(drift, g);
      var p :| Recorded(drift, g, p);
      DriftRecordedIff(groups, g, p);
    } else {
      forall g, p
        ensures !HasDrift(PinName, groups, g, p)
      {
        DriftRecordedIff(groups, g, p);
      }
    }
  }
}
