/** `load_uv_dependencies` without the file read: the section checks, the ordered
    `groups` mapping built from the document, and the configuration. */
module Loader {
  import opened Common
  import opened OrderedTable
  import opened Config
  import opened Document

  /** `{**t, **items}`: each item in turn is written with `d[k] = v`. */
  function PutAll<V>(t: Table<V>, items: Table<V>): (r: Table<V>)
    ensures DistinctKeys(t) ==> DistinctKeys(r)
    decreases |items|
  {
    if items == [] then t
    else
      assert DistinctKeys(t) ==> DistinctKeys(Put(t, items[0].0, items[0].1)) by {
        if DistinctKeys(t) {
          PutDistinct(t, items[0].0, items[0].1);
        }
      }
      PutAll(Put(t, items[0].0, items[0].1), items[1..])
  }

  /** `[project.optional-dependencies]`, or the empty table when it is absent. */
  function OptionalTable(s: DocState): (t: Table<seq<string>>)
    ensures Keys(t) == OptionalNames(s)
  {
    if s.project.Some? && s.project.value.optionalDependencies.Some?
    then s.project.value.optionalDependencies.value
    else []
  }

  /** What `load_uv_dependencies` returns besides the document itself. */
  datatype Loaded = Loaded(groups: Table<seq<string>>, config: Config)

  /** `load_uv_dependencies()` over the parsed document `s`. */
  function LoadUvDependencies(s: DocState): (r: Result<Loaded>)
    ensures s.project.None? ==> r == Err(MissingSection("project"))
    ensures s.project.Some? && s.project.value.dependencies.None? ==>
              r == Err(MissingSection("project.dependencies"))
    ensures s.project.Some? && s.project.value.dependencies.Some? && s.dependencyGroups.None? ==>
              r == Err(MissingSection("dependency-groups"))
    ensures s.project.Some? && s.project.value.dependencies.Some? && s.dependencyGroups.Some? &&
            s.dependencyGroups.value.dev.None? ==>
              r == Err(MissingSection("dependency-groups.dev"))
    // With every section present, loading fails exactly when the configuration is
    // rejected, and then with the configuration's error.
    ensures s.project.Some? && s.project.value.dependencies.Some? && s.dependencyGroups.Some? &&
            s.dependencyGroups.value.dev.Some? ==>
              (r.Ok? <==> LoadConfig(s.tool).Ok?) &&
              (r.Ok? ==> r.value.config == LoadConfig(s.tool).value) &&
              (r.Err? ==> r.error == LoadConfig(s.tool).error)
    ensures r.Ok? ==> DistinctKeys(r.value.groups)
  {
    if s.project.None? then Err(MissingSection("project"))
    else if s.project.value.dependencies.None? then Err(MissingSection("project.dependencies"))
    else if s.dependencyGroups.None? then Err(MissingSection("dependency-groups"))
    else if s.dependencyGroups.value.dev.None? then Err(MissingSection("dependency-groups.dev"))
    else
      var base := [("dependencies", s.project.value.dependencies.value), ("dev", s.dependencyGroups.value.dev.value)];
      var groups := PutAll(base, OptionalTable(s));
      match LoadConfig(s.tool)
      case Err(e) => Err(e)
      case Ok(config) => Ok(Loaded(groups, config))
  }

  /** No key of `items` is a key of `t`. */
  predicate Disjoint<V>(t: Table<V>, items: Table<V>)
  {
    forall i, j :: 0 <= i < |items| && 0 <= j < |t| ==> items[i].0 != t[j].0
  }

  /** Writing entries whose keys are all new appends them in order. */
  lemma {:induction false} PutAllFresh<V>(t: Table<V>, items: Table<V>)
    requires DistinctKeys(items) && Disjoint(t, items)
    ensures PutAll(t, items) == t + items
    decreases |items|
  {
    if items != [] {
      var e := items[0];
      assert e.0 !in Keys(t);
      PutNewAppends(t, e.0, e.1);
      var u := t + [e];
      forall i, j | 0 <= i < |items[1..]| && 0 <= j < |u| ensures items[1..][i].0 != u[j].0 {
        assert items[1..][i] == items[i + 1];
        if j == |t| {
          assert u[j] == items[0];
        } else {
          assert u[j] == t[j];
        }
      }
      PutAllFresh(u, items[1..]);
      assert u + items[1..] == t + items;
    }
  }

  /** Each written key reads as its (last) written value; every other key as before. */
  lemma {:induction false} PutAllGet<V>(t: Table<V>, items: Table<V>, k: string)
    requires DistinctKeys(items)
    ensures Get(PutAll(t, items), k) == if k in Keys(items) then Get(items, k) else Get(t, k)
    decreases |items|
  {
    if items != [] {
      PutGet(t, items[0].0, items[0].1, k);
      assert DistinctKeys(items[1..]);
      PutAllGet(Put(t, items[0].0, items[0].1), items[1..], k);
      KeysTail(items);
    }
  }

  /** When no optional group is called `dependencies` or `dev`, the loaded groups are
      `dependencies`, `dev` and the optional groups in document order, and each of them
      holds exactly the list the document mutators read for that name. */
  lemma LoadedGroupsMatchDocument(s: DocState)
    requires LoadUvDependencies(s).Ok?
    requires "dependencies" !in OptionalNames(s) && "dev" !in OptionalNames(s)
    requires DistinctKeys(OptionalTable(s))
    ensures var groups := LoadUvDependencies(s).value.groups;
            Keys(groups) == ["dependencies", "dev"] + OptionalNames(s) &&
            forall g :: g in Keys(groups) ==> GetDependencyArray(s, g) == Ok(Get(groups, g).value)
  {
    var base := [("dependencies", s.project.value.dependencies.value), ("dev", s.dependencyGroups.value.dev.value)];
    var optional := OptionalTable(s);
    forall i, j | 0 <= i < |optional| && 0 <= j < |base| ensures optional[i].0 != base[j].0 {
      assert optional[i].0 == Keys(optional)[i];
    }
    PutAllFresh(base, optional);
    var groups := LoadUvDependencies(s).value.groups;
    assert groups == base + optional;
    KeysAppend(base, optional);
    forall g | g in Keys(groups)
      ensures GetDependencyArray(s, g) == Ok(Get(groups, g).value)
    {
      GetConcat(base, optional, g);
    }
  }

  /** An optional group called `dev` takes the place of the `dev` group in the loaded
      mapping, while the document mutators still read and write
      `[dependency-groups].dev` under that name. */
  lemma LoadedDevShadowed(s: DocState)
    requires LoadUvDependencies(s).Ok?
    requires "dev" in OptionalNames(s) && DistinctKeys(OptionalTable(s))
    ensures Get(LoadUvDependencies(s).value.groups, "dev") == Get(OptionalTable(s), "dev")
    ensures GetDependencyArray(s, "dev") == Ok(s.dependencyGroups.value.dev.value)
  {
    var base := [("dependencies", s.project.value.dependencies.value), ("dev", s.dependencyGroups.value.dev.value)];
    PutAllGet(base, OptionalTable(s), "dev");
  }
}
