/** `split_pin` and the part of PEP 508 / PEP 440 it relies on: a pin is a package
    name, optional `[extras]`, and comma-separated clauses, each an operator
    followed by a version. The grammar is the subset pinnochio's manifests use (see
    the README for what is not covered). */
module Requirements {
  import opened Common
  import opened Text

  predicate IsAlnum(c: char)
  {
    IsDigit(c) || ('a' <= c <= 'z') || ('A' <= c <= 'Z')
  }

  predicate IsNameChar(c: char)
  {
    IsAlnum(c) || c == '-' || c == '_' || c == '.'
  }

  /** A PEP 508 project name: letters, digits, `-`, `_`, `.`, starting and ending
      with a letter or digit. */
  predicate IsName(s: string)
  {
    |s| > 0 && IsAlnum(s[0]) && IsAlnum(s[|s| - 1]) &&
    forall i :: 0 <= i < |s| ==> IsNameChar(s[i])
  }

  predicate IsSeparator(c: char)
  {
    c == '-' || c == '_' || c == '.'
  }

  /** Characters allowed after the release numbers of a public version (pre-, post-
      and dev-release segments). */
  predicate IsSuffixChar(c: char)
  {
    IsAlnum(c) || IsSeparator(c)
  }

  /** `Version(v).major`, `.minor`, `.micro`: the first three release numbers,
      missing ones read as 0. */
  datatype Release = Release(major: nat, minor: nat, micro: nat)

  /** One specifier clause, such as `>=1.0.0a1`: its operator, its version text as
      written, and that version's release numbers. */
  datatype Clause = Clause(op: string, version: string, release: Release)

  /** `packaging.Requirement`: name as written, extras, clauses in textual order. */
  datatype Requirement = Requirement(name: string, extras: seq<string>, specifier: seq<Clause>)

  /** Length of the longest prefix of name characters. */
  function NameLength(s: string): (n: nat)
    ensures n <= |s|
    ensures forall i :: 0 <= i < n ==> IsNameChar(s[i])
    ensures n < |s| ==> !IsNameChar(s[n])
  {
    if s == [] || !IsNameChar(s[0]) then 0 else 1 + NameLength(s[1..])
  }

  /** Length of the longest prefix of decimal digits. */
  function DigitRun(s: string): (n: nat)
    ensures n <= |s|
    ensures forall i :: 0 <= i < n ==> IsDigit(s[i])
    ensures n < |s| ==> !IsDigit(s[n])
  {
    if s == [] || !IsDigit(s[0]) then 0 else 1 + DigitRun(s[1..])
  }

  /** The release numbers `N(.N)*` at the start of `s`, and how many characters
      they take. */
  function ReleaseNumbers(s: string): (r: (seq<nat>, nat))
    ensures r.1 <= |s|
    ensures r.0 == [] <==> r.1 == 0
    ensures forall i :: 0 <= i < r.1 ==> IsDigit(s[i]) || s[i] == '.'
    decreases |s|
  {
    var d := DigitRun(s);
    if d == 0 then ([], 0)
    else
      var x := DigitsValue(s[..d]);
      if d + 1 < |s| && s[d] == '.' && IsDigit(s[d + 1]) then
        var rest := ReleaseNumbers(s[d + 1..]);
        assert forall i :: d + 1 <= i < d + 1 + rest.1 ==> s[i] == s[d + 1..][i - (d + 1)];
        ([x] + rest.0, d + 1 + rest.1)
      else ([x], d)
  }

  function ReleaseOf(nums: seq<nat>): Release
    requires nums != []
  {
    Release(nums[0], if |nums| > 1 then nums[1] else 0, if |nums| > 2 then nums[2] else 0)
  }

  /** `c` in lower case: PEP 440 labels are matched ignoring case. */
  function Lower(c: char): char
  {
    if 'A' <= c <= 'Z' then (c as int + 32) as char else c
  }

  /** `s` has `l` at position `i`, ignoring case. The labels are letters, so the
      characters matched are letters too. */
  predicate LabelAt(s: string, i: nat, l: string)
  {
    i + |l| <= |s| && forall j :: i <= j < i + |l| ==> IsAlnum(s[j]) && Lower(s[j]) == l[j - i]
  }

  /** The pre-release labels, each listed before any label that is a prefix of it. */
  const PreLabels: seq<string> := ["alpha", "a", "beta", "b", "preview", "pre", "c", "rc"]

  const PostLabels: seq<string> := ["post", "rev", "r"]

  const DevLabels: seq<string> := ["dev"]

  /** Length of the first label of `labels` at position `i` of `s`; 0 if none is. */
  function LabelLength(s: string, i: nat, labels: seq<string>): (n: nat)
    ensures i + n <= |s| || n == 0
  {
    if labels == [] then 0
    else if LabelAt(s, i, labels[0]) then |labels[0]|
    else LabelLength(s, i, labels[1..])
  }

  /** End of the run of decimal digits starting at position `i` of `s`. */
  function DigitsEnd(s: string, i: nat): (e: nat)
    requires i <= |s|
    ensures i <= e <= |s|
    decreases |s| - i
  {
    if i < |s| && IsDigit(s[i]) then DigitsEnd(s, i + 1) else i
  }

  /** End of the run of letters and digits starting at position `i` of `s`. */
  function AlnumEnd(s: string, i: nat): (e: nat)
    requires i <= |s|
    ensures i <= e <= |s|
    ensures e < |s| ==> !IsAlnum(s[e])
    decreases |s| - i
  {
    if i < |s| && IsAlnum(s[i]) then AlnumEnd(s, i + 1) else i
  }

  /** 1 when `s` has a separator at position `i`, else 0. */
  function SeparatorAt(s: string, i: nat): (n: nat)
    ensures n <= 1 && (n == 1 ==> i < |s| && IsSeparator(s[i]))
  {
    if i < |s| && IsSeparator(s[i]) then 1 else 0
  }

  /** End of the segment `[-_.]? label [-_.]? digits*` starting at position `i` of
      `s`, the shape of a pre-release, a labelled post-release and a dev-release;
      `i` itself when there is none. */
  function LabelledEnd(s: string, i: nat, labels: seq<string>): (e: nat)
    requires i <= |s|
    ensures i <= e <= |s|
  {
    var a := i + SeparatorAt(s, i);
    var l := LabelLength(s, a, labels);
    if l == 0 then i
    else
      var b := a + l;
      DigitsEnd(s, b + SeparatorAt(s, b))
  }

  /** End of the post-release segment starting at position `i`: `-N`, or a labelled
      one. */
  function PostEnd(s: string, i: nat): (e: nat)
    requires i <= |s|
    ensures i <= e <= |s|
  {
    if i + 1 < |s| && s[i] == '-' && IsDigit(s[i + 1]) then DigitsEnd(s, i + 1)
    else LabelledEnd(s, i, PostLabels)
  }

  /** End of the optional release segments starting at position `i`, from `stage`
      on: 0 pre-release, 1 post-release, 2 dev-release. */
  function SuffixFrom(s: string, i: nat, stage: nat): (e: nat)
    requires i <= |s|
    ensures i <= e <= |s|
    decreases 3 - stage
  {
    if stage >= 3 then i
    else if stage == 0 then SuffixFrom(s, LabelledEnd(s, i, PreLabels), 1)
    else if stage == 1 then SuffixFrom(s, PostEnd(s, i), 2)
    else SuffixFrom(s, LabelledEnd(s, i, DevLabels), 3)
  }

  /** End of the optional pre-, post- and dev-release segments, in that order,
      starting at position `i`. */
  function SuffixEnd(s: string, i: nat): (e: nat)
    requires i <= |s|
    ensures i <= e <= |s|
  {
    SuffixFrom(s, i, 0)
  }

  /** Letters-and-digits segments joined by separators, from position `i` to the end. */
  predicate LocalSegments(s: string, i: nat)
    requires i <= |s|
    decreases |s| - i
  {
    var e := AlnumEnd(s, i);
    e > i && (e == |s| || (IsSeparator(s[e]) && LocalSegments(s, e + 1)))
  }

  /** A local version label from position `i` to the end: `+` and its segments. */
  predicate IsLocalLabel(s: string, i: nat)
    requires i <= |s|
  {
    i < |s| && s[i] == '+' && LocalSegments(s, i + 1)
  }

  lemma LabelLengthChars(s: string, i: nat, labels: seq<string>)
    ensures forall j :: i <= j < i + LabelLength(s, i, labels) ==> IsAlnum(s[j])
  {
    if labels != [] && !LabelAt(s, i, labels[0]) {
      LabelLengthChars(s, i, labels[1..]);
    }
  }

  lemma DigitsEndChars(s: string, i: nat)
    requires i <= |s|
    ensures forall j :: i <= j < DigitsEnd(s, i) ==> IsDigit(s[j])
    decreases |s| - i
  {
    if i < |s| && IsDigit(s[i]) {
      DigitsEndChars(s, i + 1);
    }
  }

  lemma LabelledEndChars(s: string, i: nat, labels: seq<string>)
    requires i <= |s|
    ensures forall j :: i <= j < LabelledEnd(s, i, labels) ==> IsSuffixChar(s[j])
  {
    var a := i + SeparatorAt(s, i);
    LabelLengthChars(s, a, labels);
    var l := LabelLength(s, a, labels);
    if l != 0 {
      var b := a + l;
      DigitsEndChars(s, b + SeparatorAt(s, b));
    }
  }

  /** Every character of the pre-, post- and dev-release segments is a letter, a
      digit or a separator. */
  lemma SuffixFromChars(s: string, i: nat, stage: nat)
    requires i <= |s|
    ensures forall j :: i <= j < SuffixFrom(s, i, stage) ==> IsSuffixChar(s[j])
    decreases 3 - stage
  {
    if stage < 3 {
      var e := if stage == 0 then LabelledEnd(s, i, PreLabels)
               else if stage == 1 then PostEnd(s, i)
               else LabelledEnd(s, i, DevLabels);
      if stage == 1 && i + 1 < |s| && s[i] == '-' && IsDigit(s[i + 1]) {
        DigitsEndChars(s, i + 1);
      } else {
        LabelledEndChars(s, i, if stage == 0 then PreLabels else if stage == 1 then PostLabels else DevLabels);
      }
      SuffixFromChars(s, e, stage + 1);
    }
  }

  /** `Version(v)` of a public version (release numbers, then optional pre-, post- and
      dev-release segments), reduced to its release triple; None when `v` is not one. */
  function ParseVersion(v: string): (r: Option<Release>)
    ensures r.Some? ==> v != [] && IsDigit(v[0])
    ensures r.Some? ==> forall i :: 0 <= i < |v| ==> IsDigit(v[i]) || IsSuffixChar(v[i])
  {
    var (nums, n) := ReleaseNumbers(v);
    if nums == [] || SuffixEnd(v, n) != |v| then None
    else
      assert DigitRun(v) > 0;
      assert forall i :: 0 <= i < n ==> IsDigit(v[i]) || v[i] == '.';
      SuffixFromChars(v, n, 0);
      Some(ReleaseOf(nums))
  }

  /** The version check packaging's `Specifier` makes after each operator: a public
      version after `<`, `<=`, `>` and `>=`; one with at least two release numbers
      after `~=`; after `==` and `!=` also a `.*` wildcard after the release numbers,
      or a local label after a public version. `===` is not modelled. */
  function ClauseVersion(op: string, v: string): Option<Release>
  {
    if op in ["<", "<=", ">", ">="] then ParseVersion(v)
    else if op == "~=" then
      if |ReleaseNumbers(v).0| >= 2 then ParseVersion(v) else None
    else if op == "==" || op == "!=" then
      var (nums, n) := ReleaseNumbers(v);
      if nums == [] then None
      else if n + 2 == |v| && v[n] == '.' && v[n + 1] == '*' then Some(ReleaseOf(nums))
      else
        var k := SuffixEnd(v, n);
        if k == |v| || IsLocalLabel(v, k) then Some(ReleaseOf(nums)) else None
    else None
  }

  /** Length of the comparison operator a clause starts with (`===`, `~=`, `==`,
      `!=`, `<=`, `>=`, `<` or `>`, longest match first); 0 if none. */
  function OperatorLength(c: string): (n: nat)
    ensures n <= |c| && n <= 3
  {
    if |c| >= 3 && c[0] == '=' && c[1] == '=' && c[2] == '=' then 3
    else if |c| >= 2 && c[1] == '=' && (c[0] == '~' || c[0] == '=' || c[0] == '!' || c[0] == '<' || c[0] == '>') then 2
    else if |c| >= 1 && (c[0] == '<' || c[0] == '>') then 1
    else 0
  }

  function ParseClause(c: string): (r: Option<Clause>)
    ensures r.Some? ==> c == r.value.op + r.value.version && r.value.op != ""
    ensures r.Some? ==> ClauseVersion(r.value.op, r.value.version) == Some(r.value.release)
    ensures r.Some? && r.value.op in ["<", "<=", ">", ">="] ==>
              ParseVersion(r.value.version) == Some(r.value.release)
  {
    var n := OperatorLength(c);
    if n == 0 then None
    else
      var op := c[..n];
      var v := c[n..];
      assert c == op + v;
      match ClauseVersion(op, v)
      case None => None
      case Some(rel) => Some(Clause(op, v, rel))
  }

  function ParseClauses(parts: seq<string>): (r: Option<seq<Clause>>)
    ensures r.Some? ==> |r.value| == |parts|
    ensures r.Some? ==> forall i :: 0 <= i < |parts| ==> ParseClause(parts[i]) == Some(r.value[i])
  {
    if parts == [] then Some([])
    else
      match ParseClause(parts[0])
      case None => None
      case Some(c) =>
        match ParseClauses(parts[1..])
        case None => None
        case Some(cs) => Some([c] + cs)
  }

  /** A specifier set: empty, or clauses separated by commas. */
  function ParseSpecifier(s: string): Option<seq<Clause>>
  {
    if s == "" then Some([]) else ParseClauses(Split(s, ','))
  }

  /** The optional `[extra,...]` part and the text after it. */
  function ParseExtras(s: string): (r: Option<(seq<string>, string)>)
    ensures r.Some? ==> forall e :: e in r.value.0 ==> IsName(e)
    ensures r.Some? ==> |r.value.1| <= |s| && s[|s| - |r.value.1|..] == r.value.1
  {
    if s == [] || s[0] != '[' then Some(([], s))
    else if ']' !in s then None
    else
      var j := IndexOf(s, ']');
      var inner := s[1..j];
      var extras := if inner == [] then [] else Split(inner, ',');
      if forall e :: e in extras ==> IsName(e) then Some((extras, s[j + 1..])) else None
  }

  /** `Requirement(pin)`; None where packaging raises InvalidRequirement. */
  function ParseRequirement(pin: string): (r: Option<Requirement>)
    ensures r.Some? ==> IsName(r.value.name)
    ensures r.Some? ==> forall e :: e in r.value.extras ==> IsName(e)
  {
    var n := NameLength(pin);
    var name := pin[..n];
    if !IsName(name) then None
    else
      match ParseExtras(pin[n..])
      case None => None
      case Some((extras, rest)) =>
        match ParseSpecifier(rest)
        case None => None
        case Some(clauses) => Some(Requirement(name, extras, clauses))
  }

  /** `split_pin(pin)[0]`: the package name, or None where split_pin raises. */
  function PinName(pin: string): Option<string>
  {
    match ParseRequirement(pin)
    case None => None
    case Some(req) => Some(req.name)
  }

  /** What packaging's `Specifier` demands of the version after each operator: a
      local label or a `.*` wildcard only after `==` and `!=`, two release numbers
      after `~=`, and no `===` clause. */
  lemma ClauseVersionRules(op: string, v: string)
    requires ClauseVersion(op, v).Some?
    ensures ('+' in v || '*' in v) ==> op == "==" || op == "!="
    ensures op == "~=" ==> |ReleaseNumbers(v).0| >= 2
    ensures op != "==="
    ensures v != [] && IsDigit(v[0])
  {
    if op != "==" && op != "!=" {
      assert ParseVersion(v).Some?;
    }
  }

  /** No label starts at position `j`: it is past the end, or holds a character
      that is not a letter or digit, or a letter no pre-, post- or dev-release label
      begins with. */
  predicate NoLabelAt(s: string, j: nat)
  {
    j >= |s| || !IsAlnum(s[j]) || Lower(s[j]) !in ['a', 'b', 'c', 'd', 'p', 'r']
  }

  lemma NoLabelLength(s: string, i: nat, labels: seq<string>)
    requires NoLabelAt(s, i)
    requires forall k :: 0 <= k < |labels| ==> labels[k] != [] && labels[k][0] in ['a', 'b', 'c', 'd', 'p', 'r']
    ensures LabelLength(s, i, labels) == 0
  {
    if labels != [] {
      assert !LabelAt(s, i, labels[0]);
      NoLabelLength(s, i, labels[1..]);
    }
  }

  lemma NoLabelledSegment(s: string, i: nat, labels: seq<string>)
    requires i <= |s|
    requires NoLabelAt(s, i) && (i < |s| && IsSeparator(s[i]) ==> NoLabelAt(s, i + 1))
    requires forall k :: 0 <= k < |labels| ==> labels[k] != [] && labels[k][0] in ['a', 'b', 'c', 'd', 'p', 'r']
    ensures LabelledEnd(s, i, labels) == i
  {
    NoLabelLength(s, i + SeparatorAt(s, i), labels);
  }

  /** With no label at position `i`, nor after a separator there, and no `-N`
      post-release, no pre-, post- or dev-release segment starts at `i`. */
  lemma SuffixEndWithoutSegment(s: string, i: nat)
    requires i <= |s|
    requires NoLabelAt(s, i) && (i < |s| && IsSeparator(s[i]) ==> NoLabelAt(s, i + 1))
    requires !(i + 1 < |s| && s[i] == '-' && IsDigit(s[i + 1]))
    ensures SuffixEnd(s, i) == i
  {
    NoLabelledSegment(s, i, PreLabels);
    NoLabelledSegment(s, i, PostLabels);
    NoLabelledSegment(s, i, DevLabels);
    assert PostEnd(s, i) == i;
    assert SuffixFrom(s, i, 2) == i;
    assert SuffixFrom(s, i, 1) == i;
  }

  /** A version whose release numbers are followed by something that starts no
      pre-, post- or dev-release segment is rejected: `1.0xyz`, `1..0`, `1.0.`,
      `1.0+local` (a local label is not part of a public version). */
  lemma UnknownSuffixRejected(v: string)
    requires ReleaseNumbers(v).1 < |v|
    requires NoLabelAt(v, ReleaseNumbers(v).1)
    requires IsSeparator(v[ReleaseNumbers(v).1]) ==> NoLabelAt(v, ReleaseNumbers(v).1 + 1)
    requires !(ReleaseNumbers(v).1 + 1 < |v| && v[ReleaseNumbers(v).1] == '-' && IsDigit(v[ReleaseNumbers(v).1 + 1]))
    ensures ParseVersion(v).None?
  {
    var (nums, n) := ReleaseNumbers(v);
    SuffixEndWithoutSegment(v, n);
    assert SuffixEnd(v, n) != |v|;
  }
}
