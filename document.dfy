/** The parts of a pyproject.toml document the rules read and write, and the three
    functions that find, replace and transform the pin list of one dependency group:
    `dependencies` is `[project].dependencies`, `dev` is `[dependency-groups].dev`, and
    every other name is an entry of `[project.optional-dependencies]`. */
module Document {
  import opened Common
  import opened OrderedTable
  import opened Config

  /** `[project]`: its `dependencies` array and its `optional-dependencies` table. */
  datatype ProjectTable = ProjectTable(dependencies: Option<seq<string>>,
                                       optionalDependencies: Option<Table<seq<string>>>)

  /** `[dependency-groups]`, reduced to its `dev` array. */
  datatype DependencyGroupsTable = DependencyGroupsTable(dev: Option<seq<string>>)

  /** The document as a value: the three top-level tables the engine looks at. */
  datatype DocState = DocState(project: Option<ProjectTable>,
                               dependencyGroups: Option<DependencyGroupsTable>,
                               tool: Option<ToolTable>)

  /** A function from a group's pins to its new pins, which may raise. */
  type Transform = seq<string> -> Result<seq<string>>

  /** The names of the optional groups, in document order. */
  function OptionalNames(s: DocState): seq<string>
  {
    if s.project.Some? && s.project.value.optionalDependencies.Some?
    then Keys(s.project.value.optionalDependencies.value)
    else []
  }

  /** `get_dependency_array(doc, group)`; a missing table or key is the KeyError. */
  function GetDependencyArray(s: DocState, group: string): (r: Result<seq<string>>)
    ensures r.Err? ==> r.error.MissingKey?
    ensures group != "dependencies" && group != "dev" ==> (r.Ok? <==> group in OptionalNames(s))
  {
    if group == "dependencies" then
      if s.project.None? then Err(MissingKey("project"))
      else if s.project.value.dependencies.None? then Err(MissingKey("dependencies"))
      else Ok(s.project.value.dependencies.value)
    else if group == "dev" then
      if s.dependencyGroups.None? then Err(MissingKey("dependency-groups"))
      else if s.dependencyGroups.value.dev.None? then Err(MissingKey("dev"))
      else Ok(s.dependencyGroups.value.dev.value)
    else if s.project.None? then Err(MissingKey("project"))
    else if s.project.value.optionalDependencies.None? then Err(MissingKey("optional-dependencies"))
    else
      match Get(s.project.value.optionalDependencies.value, group)
      case None => Err(MissingKey(group))
      case Some(a) => Ok(a)
  }

  /** The document after `set_dependency_array(doc, group, pins)`: only the table
      that holds the group has to exist; the entry itself is created if missing. */
  function WithDependencyArray(s: DocState, group: string, pins: seq<string>): (r: Result<DocState>)
    ensures r.Ok? ==> r.value.tool == s.tool
  {
    if group == "dependencies" then
      if s.project.None? then Err(MissingKey("project"))
      else Ok(s.(project := Some(s.project.value.(dependencies := Some(pins)))))
    else if group == "dev" then
      if s.dependencyGroups.None? then Err(MissingKey("dependency-groups"))
      else Ok(s.(dependencyGroups := Some(s.dependencyGroups.value.(dev := Some(pins)))))
    else if s.project.None? then Err(MissingKey("project"))
    else if s.project.value.optionalDependencies.None? then Err(MissingKey("optional-dependencies"))
    else
      var optional := s.project.value.optionalDependencies.value;
      Ok(s.(project := Some(s.project.value.(optionalDependencies := Some(Put(optional, group, pins))))))
  }

  /** The document after `update_dependencies_in_group(doc, group, transform)`: read the
      group, transform it, write the result back; an error in either of the first two
      steps leaves the document as it was. */
  function UpdatedGroup(s: DocState, group: string, transform: Transform): Result<DocState>
  {
    match GetDependencyArray(s, group)
    case Err(e) => Err(e)
    case Ok(current) =>
      match transform(current)
      case Err(e) => Err(e)
      case Ok(transformed) => WithDependencyArray(s, group, transformed)
  }

  /** Setting a group makes it read back as the new pins. */
  lemma WithDependencyArrayReadsBack(s: DocState, group: string, pins: seq<string>)
    requires WithDependencyArray(s, group, pins).Ok?
    ensures GetDependencyArray(WithDependencyArray(s, group, pins).value, group) == Ok(pins)
  {
    if group != "dependencies" && group != "dev" {
      PutGet(s.project.value.optionalDependencies.value, group, pins, group);
    }
  }

  /** Setting a group leaves every other group reading as before. */
  lemma WithDependencyArrayFrame(s: DocState, group: string, pins: seq<string>, other: string)
    requires WithDependencyArray(s, group, pins).Ok? && other != group
    ensures GetDependencyArray(WithDependencyArray(s, group, pins).value, other) == GetDependencyArray(s, other)
  {
    if group != "dependencies" && group != "dev" {
      PutGet(s.project.value.optionalDependencies.value, group, pins, other);
    }
  }

  /** An optional group keeps its place in the table or is added at its end. */
  lemma WithDependencyArrayNames(s: DocState, group: string, pins: seq<string>)
    requires WithDependencyArray(s, group, pins).Ok?
    ensures OptionalNames(WithDependencyArray(s, group, pins).value) ==
              if group == "dependencies" || group == "dev" || group in OptionalNames(s) then OptionalNames(s)
              else OptionalNames(s) + [group]
  {
    if group != "dependencies" && group != "dev" {
      PutKeys(s.project.value.optionalDependencies.value, group, pins);
    }
  }

  /** Setting fails exactly when the table that holds the group is missing, which a
      successful read of the group rules out. */
  lemma WithDependencyArrayFails(s: DocState, group: string, pins: seq<string>)
    ensures WithDependencyArray(s, group, pins).Err? <==>
              if group == "dependencies" then s.project.None?
              else if group == "dev" then s.dependencyGroups.None?
              else s.project.None? || s.project.value.optionalDependencies.None?
    ensures GetDependencyArray(s, group).Ok? ==> WithDependencyArray(s, group, pins).Ok?
  {
  }

  /** Writing back the pins a group already has changes nothing. */
  lemma WithSameArray(s: DocState, group: string)
    requires GetDependencyArray(s, group).Ok?
    ensures WithDependencyArray(s, group, GetDependencyArray(s, group).value) == Ok(s)
  {
    if group != "dependencies" && group != "dev" {
      var optional := s.project.value.optionalDependencies.value;
      PutSame(optional, group, GetDependencyArray(s, group).value);
    }
  }

  /** An update fails exactly when the group cannot be read or the transformation
      raises; otherwise the group reads as the transformed list and nothing else
      changes. */
  lemma UpdatedGroupEffect(s: DocState, group: string, transform: Transform, other: string)
    ensures UpdatedGroup(s, group, transform).Ok? <==>
              GetDependencyArray(s, group).Ok? && transform(GetDependencyArray(s, group).value).Ok?
    ensures UpdatedGroup(s, group, transform).Ok? ==>
              var t := UpdatedGroup(s, group, transform).value;
              GetDependencyArray(t, group) == transform(GetDependencyArray(s, group).value) &&
              (other != group ==> GetDependencyArray(t, other) == GetDependencyArray(s, other)) &&
              t.tool == s.tool
  {
    if GetDependencyArray(s, group).Ok? && transform(GetDependencyArray(s, group).value).Ok? {
      var current := GetDependencyArray(s, group).value;
      WithDependencyArrayFails(s, group, transform(current).value);
      WithDependencyArrayReadsBack(s, group, transform(current).value);
      if other != group {
        WithDependencyArrayFrame(s, group, transform(current).value, other);
      }
    }
  }

  /** The mutable TOML document. */
  class Document {
    var project: Option<ProjectTable>
    var dependencyGroups: Option<DependencyGroupsTable>
    var tool: Option<ToolTable>

    /** The document's current contents as a value. */
    function State(): DocState
      reads this
    {
      DocState(project, dependencyGroups, tool)
    }

    constructor (s: DocState)
      ensures State() == s
    {
      project := s.project;
      dependencyGroups := s.dependencyGroups;
      tool := s.tool;
    }

    /** `set_dependency_array(doc, group, pins)`. */
    method SetDependencyArray(group: string, pins: seq<string>) returns (error: Option<Error>)
      modifies this
      ensures var w := WithDependencyArray(old(State()), group, pins);
              (w.Ok? ==> error == None && State() == w.value) &&
              (w.Err? ==> error == Some(w.error) && State() == old(State()))
    {
      if group == "dependencies" {
        if project.None? {
          return Some(MissingKey("project"));
        }
        project := Some(project.value.(dependencies := Some(pins)));
      } else if group == "dev" {
        if dependencyGroups.None? {
          return Some(MissingKey("dependency-groups"));
        }
        dependencyGroups := Some(dependencyGroups.value.(dev := Some(pins)));
      } else {
        if project.None? {
          return Some(MissingKey("project"));
        }
        if project.value.optionalDependencies.None? {
          return Some(MissingKey("optional-dependencies"));
        }
        var optional := project.value.optionalDependencies.value;
        project := Some(project.value.(optionalDependencies := Some(Put(optional, group, pins))));
      }
      return None;
    }

    /** `update_dependencies_in_group(doc, group, transform)`. */
    method UpdateDependenciesInGroup(group: string, transform: Transform) returns (error: Option<Error>)
      modifies this
      ensures var u := UpdatedGroup(old(State()), group, transform);
              (u.Ok? ==> error == None && State() == u.value) &&
              (u.Err? ==> error == Some(u.error) && State() == old(State()))
    {
      var current := GetDependencyArray(State(), group);
      if current.Err? {
        return Some(current.error);
      }
      var transformed := transform(current.value);
      if transformed.Err? {
        return Some(transformed.error);
      }
      WithDependencyArrayFails(State(), group, transformed.value);
      error := SetDependencyArray(group, transformed.value);
    }
  }
}
