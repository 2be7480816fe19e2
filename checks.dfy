/** What every rule returns, and the two loops the fixing rules run over the groups
    they flagged: one that carries on past a group it could not fix, one that stops at
    the first error. */
module Checks {
  import opened Common
  import opened OrderedTable
  import opened Document

  /** `CheckStatus`. */
  datatype CheckStatus = PASSED | FAILED | FIXED

  /** `CheckResult`: the status and the problem pins per group, in the order the groups
      were first recorded. */
  datatype CheckResult = CheckResult(status: CheckStatus, issues: Table<seq<string>>)

  /** One planned update: a group name and the transformation to apply to it. */
  type Update = (string, Transform)

  /** What a group reads as after one update of it: the transformed list, or the old
      one when the update raised. */
  function AfterUpdate(s: DocState, group: string, transform: Transform): Result<seq<string>>
  {
    match GetDependencyArray(s, group)
    case Err(e) => Err(e)
    case Ok(current) =>
      match transform(current)
      case Err(_) => Ok(current)
      case Ok(transformed) => Ok(transformed)
  }

  /** The document after updating each group in turn inside a `try` that swallows the
      error: a group whose update raises is left as it was. */
  function UpdateEach(s: DocState, updates: seq<Update>): DocState
    decreases |updates|
  {
    if updates == [] then s
    else
      var next := match UpdatedGroup(s, updates[0].0, updates[0].1)
                  case Ok(t) => t
                  case Err(_) => s;
      UpdateEach(next, updates[1..])
  }

  /** What a fix loop without a `try` leaves behind: the document, and the error that
      stopped the loop, if any. */
  datatype Outcome = Outcome(state: DocState, error: Option<Error>)

  /** The outcome of updating each group in turn, stopping at the first error with the
      groups already rewritten kept. */
  function UpdateAll(s: DocState, updates: seq<Update>): Outcome
    decreases |updates|
  {
    if updates == [] then Outcome(s, None)
    else
      match UpdatedGroup(s, updates[0].0, updates[0].1)
      case Err(e) => Outcome(s, Some(e))
      case Ok(t) => UpdateAll(t, updates[1..])
  }

  /** The loop with a `try` around each update. */
  method UpdateEachGroup(doc: Document, updates: seq<Update>)
    modifies doc
    ensures doc.State() == UpdateEach(old(doc.State()), updates)
  {
    var i := 0;
    while i < |updates|
      invariant 0 <= i <= |updates|
      invariant UpdateEach(old(doc.State()), updates) == UpdateEach(doc.State(), updates[i..])
    {
      var _ := doc.UpdateDependenciesInGroup(updates[i].0, updates[i].1);
      assert updates[i..][1..] == updates[i + 1..];
      i := i + 1;
    }
  }

  /** The loop without a `try`: the first error escapes. */
  method UpdateAllGroups(doc: Document, updates: seq<Update>) returns (error: Option<Error>)
    modifies doc
    ensures Outcome(doc.State(), error) == UpdateAll(old(doc.State()), updates)
  {
    var i := 0;
    while i < |updates|
      invariant 0 <= i <= |updates|
      invariant UpdateAll(old(doc.State()), updates) == UpdateAll(doc.State(), updates[i..])
    {
      error := doc.UpdateDependenciesInGroup(updates[i].0, updates[i].1);
      if error.Some? {
        return;
      }
      assert updates[i..][1..] == updates[i + 1..];
      i := i + 1;
    }
    return None;
  }

  lemma DistinctKeysTail(updates: seq<Update>)
    requires updates != [] && DistinctKeys(updates)
    ensures DistinctKeys(updates[1..])
    ensures updates[0].0 !in Keys(updates[1..])
  {
  }

  /** The try-each loop reads every group it did not name as before, and each group it
      named as that group's single update left it. */
  lemma {:induction false} UpdateEachEffect(s: DocState, updates: seq<Update>, group: string)
    requires DistinctKeys(updates)
    ensures group !in Keys(updates) ==>
              GetDependencyArray(UpdateEach(s, updates), group) == GetDependencyArray(s, group)
    ensures forall i :: 0 <= i < |updates| && updates[i].0 == group ==>
              GetDependencyArray(UpdateEach(s, updates), group) == AfterUpdate(s, group, updates[i].1)
    ensures UpdateEach(s, updates).tool == s.tool
    decreases |updates|
  {
    if updates != [] {
      var (name, transform) := updates[0];
      var next := match UpdatedGroup(s, name, transform) case Ok(t) => t case Err(_) => s;
      UpdatedGroupEffect(s, name, transform, group);
      DistinctKeysTail(updates);
      UpdateEachEffect(next, updates[1..], group);
      forall i | 0 <= i < |updates| && updates[i].0 == group
        ensures GetDependencyArray(UpdateEach(s, updates), group) == AfterUpdate(s, group, updates[i].1)
      {
        if i > 0 {
          assert updates[1..][i - 1] == updates[i];
        }
      }
    }
  }

  /** The stop-at-first-error loop never touches a group it does not name, and keeps the
      `[tool]` table. */
  lemma {:induction false} UpdateAllFrame(s: DocState, updates: seq<Update>, group: string)
    requires group !in Keys(updates)
    ensures GetDependencyArray(UpdateAll(s, updates).state, group) == GetDependencyArray(s, group)
    ensures UpdateAll(s, updates).state.tool == s.tool
    decreases |updates|
  {
    if updates != [] {
      UpdatedGroupEffect(s, updates[0].0, updates[0].1, group);
      assert Keys(updates[1..]) == Keys(updates)[1..];
      if UpdatedGroup(s, updates[0].0, updates[0].1).Ok? {
        UpdateAllFrame(UpdatedGroup(s, updates[0].0, updates[0].1).value, updates[1..], group);
      }
    }
  }

  /** With distinct names, the stop-at-first-error loop finishes without error exactly
      when every named group can be read and transformed, and then each named group
      holds its transformed list. */
  lemma {:induction false} UpdateAllEffect(s: DocState, updates: seq<Update>)
    requires DistinctKeys(updates)
    ensures UpdateAll(s, updates).error.None? <==>
              forall i :: 0 <= i < |updates| ==>
                GetDependencyArray(s, updates[i].0).Ok? &&
                updates[i].1(GetDependencyArray(s, updates[i].0).value).Ok?
    ensures UpdateAll(s, updates).error.None? ==>
              forall i :: 0 <= i < |updates| ==>
                GetDependencyArray(UpdateAll(s, updates).state, updates[i].0) ==
                updates[i].1(GetDependencyArray(s, updates[i].0).value)
    decreases |updates|
  {
    if updates != [] {
      var (name, transform) := updates[0];
      DistinctKeysTail(updates);
      UpdatedGroupEffect(s, name, transform, name);
      if UpdatedGroup(s, name, transform).Ok? {
        var t := UpdatedGroup(s, name, transform).value;
        UpdateAllEffect(t, updates[1..]);
        UpdateAllFrame(t, updates[1..], name);
        forall i | 1 <= i < |updates|
          ensures GetDependencyArray(t, updates[i].0) == GetDependencyArray(s, updates[i].0)
        {
          UpdatedGroupEffect(s, name, transform, updates[i].0);
        }
        assert forall i :: 1 <= i < |updates| ==> updates[1..][i - 1] == updates[i];
      }
    }
  }

  /** Applying updates that each rewrite a readable group to the pins it already has
      changes nothing and raises nothing. */
  lemma {:induction false} UpdateAllIdentity(s: DocState, updates: seq<Update>)
    requires forall i :: 0 <= i < |updates| ==>
               GetDependencyArray(s, updates[i].0).Ok? &&
               updates[i].1(GetDependencyArray(s, updates[i].0).value) == GetDependencyArray(s, updates[i].0)
    ensures UpdateAll(s, updates) == Outcome(s, None)
    decreases |updates|
  {
    if updates != [] {
      WithSameArray(s, updates[0].0);
      assert UpdatedGroup(s, updates[0].0, updates[0].1) == Ok(s);
      assert forall i :: 0 <= i < |updates[1..]| ==> updates[1..][i] == updates[i + 1];
      UpdateAllIdentity(s, updates[1..]);
    }
  }
}
