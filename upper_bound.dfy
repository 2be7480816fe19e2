/** `_add_upper_bound`: give a pin that has a `>=` clause and no `<`/`<=` clause an
    upper bound computed from the lower bound and the pinning strategy. */
module UpperBound {
  import opened Common
  import opened Text
  import opened StringOrder
  import opened Requirements
  import opened Config

  /** Some clause caps the version from above (operator `<` or `<=`). */
  predicate HasUpperBound(specs: seq<Clause>)
  {
    exists c :: c in specs && (c.op == "<" || c.op == "<=")
  }

  /** The first `>=` clause, if any. */
  function LowerBound(specs: seq<Clause>): (r: Option<Clause>)
    ensures r.None? <==> forall c :: c in specs ==> c.op != ">="
    ensures r.Some? ==> FirstAtLeast(specs, r.value)
  {
    if specs == [] then None
    else if specs[0].op == ">=" then Some(specs[0])
    else
      var r := LowerBound(specs[1..]);
      assert forall c :: c in specs ==> c == specs[0] || c in specs[1..];
      assert r.Some? ==> FirstAtLeast(specs, r.value) by {
        if r.Some? {
          FirstAtLeastShift(specs, r.value);
        }
      }
      r
  }

  /** `c` is a `>=` clause of `specs` with no `>=` clause before it. */
  ghost predicate FirstAtLeast(specs: seq<Clause>, c: Clause)
  {
    exists i :: 0 <= i < |specs| && specs[i] == c && c.op == ">=" && forall k :: 0 <= k < i ==> specs[k].op != ">="
  }

  lemma FirstAtLeastShift(specs: seq<Clause>, c: Clause)
    requires specs != [] && specs[0].op != ">=" && FirstAtLeast(specs[1..], c)
    ensures FirstAtLeast(specs, c)
  {
    var i :| 0 <= i < |specs[1..]| && specs[1..][i] == c && c.op == ">=" &&
             forall k :: 0 <= k < i ==> specs[1..][k].op != ">=";
    assert specs[i + 1] == c;
    assert forall k :: 1 <= k < i + 1 ==> specs[k] == specs[1..][k - 1];
  }

  /** The search for the `>=` clause, as the loop over the specifier set does it. */
  method FindLowerBound(specs: seq<Clause>) returns (lower: Option<Clause>)
    ensures lower == LowerBound(specs)
  {
    var i := 0;
    while i < |specs|
      invariant 0 <= i <= |specs|
      invariant LowerBound(specs) == LowerBound(specs[i..])
    {
      if specs[i].op == ">=" {
        return Some(specs[i]);
      }
      assert specs[i..][1..] == specs[i + 1..];
      i := i + 1;
    }
    return None;
  }

  /** The release the synthesised `<` clause names. */
  function UpperRelease(lower: Release, strategy: PinningStrategy): Release
  {
    match strategy
    case MAJOR => Release(lower.major + 1, 0, 0)
    case MINOR => Release(lower.major, lower.minor + 1, 0)
    case PATCH => Release(lower.major, lower.minor, lower.micro + 1)
  }

  /** Release order: by major, then minor, then micro. */
  predicate ReleaseLt(a: Release, b: Release)
  {
    a.major < b.major || (a.major == b.major && (a.minor < b.minor || (a.minor == b.minor && a.micro < b.micro)))
  }

  predicate ReleaseLe(a: Release, b: Release)
  {
    a == b || ReleaseLt(a, b)
  }

  /** The releases a strategy keeps: the same major version (MAJOR), the same
      major.minor (MINOR), or the very same release (PATCH). */
  predicate SameSeries(r: Release, lower: Release, strategy: PinningStrategy)
  {
    match strategy
    case MAJOR => r.major == lower.major
    case MINOR => r.major == lower.major && r.minor == lower.minor
    case PATCH => r == lower
  }

  /** The synthesised bound lies above the lower bound, and a release at or above the
      lower bound stays below it exactly when it is in the lower bound's series. */
  lemma UpperReleaseBounds(lower: Release, strategy: PinningStrategy, r: Release)
    ensures ReleaseLt(lower, UpperRelease(lower, strategy))
    ensures ReleaseLe(lower, r) ==> (ReleaseLt(r, UpperRelease(lower, strategy)) <==> SameSeries(r, lower, strategy))
  {
  }

  /** `f"{major}.{minor}.{micro}"`. */
  function RenderRelease(r: Release): string
  {
    NatToString(r.major) + "." + NatToString(r.minor) + "." + NatToString(r.micro)
  }

  /** `f"[{','.join(sorted(req.extras))}]"` when there are extras, else "". */
  function ExtrasText(extras: seq<string>): string
  {
    if extras == [] then "" else "[" + Join(SortedSet(extras), ',') + "]"
  }

  /** `_add_upper_bound(pin, config)` with `config.pinning_strategy == strategy`. */
  function AddUpperBound(pin: string, strategy: PinningStrategy): (r: Result<string>)
    ensures ParseRequirement(pin).None? ==> r == Err(InvalidRequirement(pin))
    ensures ParseRequirement(pin).Some? && HasUpperBound(ParseRequirement(pin).value.specifier) ==> r == Ok(pin)
    ensures r == Err(NoLowerBound(pin)) <==>
              ParseRequirement(pin).Some? && !HasUpperBound(ParseRequirement(pin).value.specifier) &&
              forall c :: c in ParseRequirement(pin).value.specifier ==> c.op != ">="
  {
    match ParseRequirement(pin)
    case None => Err(InvalidRequirement(pin))
    case Some(req) =>
      if HasUpperBound(req.specifier) then Ok(pin)
      else
        match LowerBound(req.specifier)
        case None => Err(NoLowerBound(pin))
        case Some(lower) =>
          Ok(req.name + ExtrasText(req.extras) + ">=" + lower.version + ",<" +
             RenderRelease(UpperRelease(lower.release, strategy)))
  }

  // ---------------------------------------------------------------------------
  // Reading back what AddUpperBound writes

  lemma {:induction false} NameLengthOfName(a: string, b: string)
    requires forall i :: 0 <= i < |a| ==> IsNameChar(a[i])
    requires b == [] || !IsNameChar(b[0])
    ensures NameLength(a + b) == |a|
  {
    if a != [] {
      assert (a + b)[1..] == a[1..] + b;
      NameLengthOfName(a[1..], b);
    } else {
      assert a + b == b;
    }
  }

  lemma {:induction false} DigitRunOfDigits(a: string, b: string)
    requires forall i :: 0 <= i < |a| ==> IsDigit(a[i])
    requires b == [] || !IsDigit(b[0])
    ensures DigitRun(a + b) == |a|
  {
    if a != [] {
      assert (a + b)[1..] == a[1..] + b;
      DigitRunOfDigits(a[1..], b);
    } else {
      assert a + b == b;
    }
  }

  /** A run of digits followed by `.` and more release numbers. */
  lemma DigitsThenDot(a: string, t: string)
    requires a != [] && forall i :: 0 <= i < |a| ==> IsDigit(a[i])
    requires t != [] && IsDigit(t[0])
    ensures ReleaseNumbers(a + "." + t).0 == [DigitsValue(a)] + ReleaseNumbers(t).0
    ensures ReleaseNumbers(a + "." + t).1 == |a| + 1 + ReleaseNumbers(t).1
  {
    var s := a + "." + t;
    assert s == a + ("." + t);
    DigitRunOfDigits(a, "." + t);
    assert s[..|a|] == a;
    assert s[|a| + 1..] == t;
  }

  /** A run of digits that ends the text. */
  lemma DigitsAtEnd(a: string)
    requires a != [] && forall i :: 0 <= i < |a| ==> IsDigit(a[i])
    ensures ReleaseNumbers(a).0 == [DigitsValue(a)]
    ensures ReleaseNumbers(a).1 == |a|
  {
    DigitRunOfDigits(a, "");
    assert a + "" == a;
    assert a[..|a|] == a;
  }

  /** Two runs of digits joined by a dot are read as two release numbers. */
  lemma TwoNumbers(b: string, c: string)
    requires b != [] && forall i :: 0 <= i < |b| ==> IsDigit(b[i])
    requires c != [] && forall i :: 0 <= i < |c| ==> IsDigit(c[i])
    ensures ReleaseNumbers(b + "." + c).0 == [DigitsValue(b), DigitsValue(c)]
    ensures ReleaseNumbers(b + "." + c).1 == |b + "." + c|
    ensures IsDigit((b + "." + c)[0])
  {
    DigitsAtEnd(c);
    DigitsThenDot(b, c);
  }

  lemma DotAssoc(a: string, b: string, c: string)
    ensures a + "." + b + "." + c == a + "." + (b + "." + c)
  {
  }

  /** Three runs of digits joined by dots are read as those three release numbers. */
  lemma ThreeNumbers(a: string, b: string, c: string)
    requires a != [] && forall i :: 0 <= i < |a| ==> IsDigit(a[i])
    requires b != [] && forall i :: 0 <= i < |b| ==> IsDigit(b[i])
    requires c != [] && forall i :: 0 <= i < |c| ==> IsDigit(c[i])
    ensures ReleaseNumbers(a + "." + b + "." + c).0 == [DigitsValue(a), DigitsValue(b), DigitsValue(c)]
    ensures ReleaseNumbers(a + "." + b + "." + c).1 == |a + "." + b + "." + c|
  {
    var bc := b + "." + c;
    TwoNumbers(b, c);
    DigitsThenDot(a, bc);
    DotAssoc(a, b, c);
    assert [DigitsValue(a)] + [DigitsValue(b), DigitsValue(c)] == [DigitsValue(a), DigitsValue(b), DigitsValue(c)];
  }

  /** Three runs of digits joined by dots are read as a release with those numbers. */
  lemma ParseThreeNumbers(a: string, b: string, c: string)
    requires a != [] && forall i :: 0 <= i < |a| ==> IsDigit(a[i])
    requires b != [] && forall i :: 0 <= i < |b| ==> IsDigit(b[i])
    requires c != [] && forall i :: 0 <= i < |c| ==> IsDigit(c[i])
    ensures ParseVersion(a + "." + b + "." + c) == Some(Release(DigitsValue(a), DigitsValue(b), DigitsValue(c)))
  {
    ThreeNumbers(a, b, c);
    ParseVersionOfRelease(a + "." + b + "." + c);
  }

  /** A version that is nothing but release numbers. */
  lemma ParseVersionOfRelease(v: string)
    requires ReleaseNumbers(v).0 != [] && ReleaseNumbers(v).1 == |v|
    ensures ParseVersion(v) == Some(ReleaseOf(ReleaseNumbers(v).0))
  {
    assert SuffixEnd(v, |v|) == |v|;
  }

  /** The rendered upper bound is read back as the same release. */
  lemma ParseRenderedRelease(r: Release)
    ensures ParseVersion(RenderRelease(r)) == Some(r)
  {
    ParseThreeNumbers(NatToString(r.major), NatToString(r.minor), NatToString(r.micro));
    DigitsValueOfNatToString(r.major);
    DigitsValueOfNatToString(r.minor);
    DigitsValueOfNatToString(r.micro);
  }

  lemma OperatorOfLess(v: string)
    requires v != [] && IsDigit(v[0])
    ensures OperatorLength("<" + v) == 1 && ("<" + v)[..1] == "<" && ("<" + v)[1..] == v
  {
    var c := "<" + v;
    assert c[0] == '<' && c[1] == v[0];
  }

  lemma OperatorOfAtLeast(v: string)
    requires v != [] && IsDigit(v[0])
    ensures OperatorLength(">=" + v) == 2 && (">=" + v)[..2] == ">=" && (">=" + v)[2..] == v
  {
    var c := ">=" + v;
    assert c[0] == '>' && c[1] == '=' && c[2] == v[0];
  }

  lemma OperatorOfGreater(v: string)
    requires v != [] && IsDigit(v[0])
    ensures OperatorLength(">" + v) == 1 && (">" + v)[..1] == ">" && (">" + v)[1..] == v
  {
    var c := ">" + v;
    assert c[0] == '>' && c[1] == v[0];
  }

  lemma ParseClauseLess(v: string, rel: Release)
    requires ParseVersion(v) == Some(rel)
    ensures ParseClause("<" + v) == Some(Clause("<", v, rel))
  {
    OperatorOfLess(v);
  }

  lemma ParseClauseAtLeast(v: string, rel: Release)
    requires ParseVersion(v) == Some(rel)
    ensures ParseClause(">=" + v) == Some(Clause(">=", v, rel))
  {
    OperatorOfAtLeast(v);
  }

  lemma ParseClauseGreater(v: string, rel: Release)
    requires ParseVersion(v) == Some(rel)
    ensures ParseClause(">" + v) == Some(Clause(">", v, rel))
  {
    OperatorOfGreater(v);
  }

  /** A version has no comma, bracket or comparison character in it. */
  lemma VersionChars(v: string, rel: Release)
    requires ParseVersion(v) == Some(rel)
    ensures ',' !in v && '<' !in v && '>' !in v && ']' !in v && '[' !in v
  {
  }

  lemma ParseClausesCons(p: string, ps: seq<string>, c: Clause, cs: seq<Clause>)
    requires ParseClause(p) == Some(c) && ParseClauses(ps) == Some(cs)
    ensures ParseClauses([p] + ps) == Some([c] + cs)
  {
    assert ([p] + ps)[0] == p;
    assert ([p] + ps)[1..] == ps;
  }

  lemma ParseClausesTwo(a: string, b: string, ca: Clause, cb: Clause)
    requires ParseClause(a) == Some(ca) && ParseClause(b) == Some(cb)
    ensures ParseClauses([a, b]) == Some([ca, cb])
  {
    ParseClausesOne(b, cb);
    ParseClausesCons(a, [b], ca, [cb]);
    assert [a] + [b] == [a, b] && [ca] + [cb] == [ca, cb];
  }

  lemma ParseClausesOne(b: string, cb: Clause)
    requires ParseClause(b) == Some(cb)
    ensures ParseClauses([b]) == Some([cb])
  {
    assert [b][0] == b && [b][1..] == [];
    assert ParseClauses([]) == Some([]);
    assert [cb] + [] == [cb];
  }

  lemma JoinTwo(a: string, b: string)
    ensures Join([a, b], ',') == a + "," + b
  {
    assert [a, b][1..] == [b];
  }

  /** Two clauses joined by a comma are read back as those two clauses. */
  lemma ParseTwoClauses(a: string, b: string, ca: Clause, cb: Clause)
    requires ParseClause(a) == Some(ca) && ParseClause(b) == Some(cb)
    requires ',' !in a && ',' !in b
    ensures ParseSpecifier(a + "," + b) == Some([ca, cb])
  {
    JoinTwo(a, b);
    SplitJoin([a, b], ',');
    assert Split(a + "," + b, ',') == [a, b];
    assert |a + "," + b| > 0;
    ParseClausesTwo(a, b, ca, cb);
  }

  /** A name has no comma or closing bracket in it. */
  lemma NameChars(e: string)
    requires IsName(e)
    ensures ',' !in e && ']' !in e && '[' !in e && '>' !in e && '<' !in e
  {
  }

  lemma {:induction false} JoinedNamesChars(names: seq<string>)
    requires forall e :: e in names ==> IsName(e)
    ensures ']' !in Join(names, ',')
  {
    if ']' in Join(names, ',') {
      JoinChars(names, ',', ']');
      var p :| p in names && ']' in p;
      NameChars(p);
    }
  }

  lemma JoinNonEmpty(names: seq<string>)
    requires |names| >= 1 && names[0] != []
    ensures Join(names, ',') != []
  {
  }

  /** Text that does not start with `[` has no extras. */
  lemma ParseExtrasAbsent(rest: string)
    requires rest != [] && rest[0] != '['
    ensures ParseExtras(rest).Some?
    ensures ParseExtras(rest).value.0 == [] && ParseExtras(rest).value.1 == rest
  {
  }

  /** A bracketed, comma-separated list of names is read back as that list. */
  lemma ParseExtrasBracket(names: seq<string>, rest: string)
    requires names != [] && forall e :: e in names ==> IsName(e)
    ensures ParseExtras("[" + Join(names, ',') + "]" + rest).Some?
    ensures ParseExtras("[" + Join(names, ',') + "]" + rest).value.0 == names
    ensures ParseExtras("[" + Join(names, ',') + "]" + rest).value.1 == rest
  {
    var joined := Join(names, ',');
    var s := "[" + joined + "]" + rest;
    assert s == ("[" + joined) + "]" + rest;
    JoinedNamesChars(names);
    assert ']' !in "[" + joined;
    IndexOfAfter("[" + joined, ']', rest);
    var j := IndexOf(s, ']');
    assert j == |joined| + 1;
    assert s[1..j] == joined;
    assert s[j + 1..] == rest;
    assert names[0] in names;
    JoinNonEmpty(names);
    assert forall e :: e in names ==> ',' !in e by {
      forall e | e in names ensures ',' !in e { NameChars(e); }
    }
    SplitJoin(names, ',');
  }

  lemma SortedSetEmpty(s: seq<string>)
    ensures SortedSet(s) == [] <==> s == []
  {
    if s != [] {
      assert s[0] in s;
      assert s[0] in SortedSet(s);
    }
  }

  /** The extras part AddUpperBound writes is read back as the sorted set of extras. */
  lemma ParseExtrasText(extras: seq<string>, rest: string)
    requires forall e :: e in extras ==> IsName(e)
    requires rest != [] && rest[0] == '>'
    ensures ParseExtras(ExtrasText(extras) + rest).Some?
    ensures ParseExtras(ExtrasText(extras) + rest).value.0 == SortedSet(extras)
    ensures ParseExtras(ExtrasText(extras) + rest).value.1 == rest
  {
    SortedSetEmpty(extras);
    if extras == [] {
      assert ExtrasText(extras) + rest == rest;
      ParseExtrasAbsent(rest);
    } else {
      ParseExtrasBracket(SortedSet(extras), rest);
    }
  }

  /** A name followed by text that cannot continue it. */
  lemma NameThen(name: string, tail: string)
    requires IsName(name)
    requires tail != [] && !IsNameChar(tail[0])
    ensures NameLength(name + tail) == |name|
    ensures (name + tail)[..|name|] == name && (name + tail)[|name|..] == tail
  {
    NameLengthOfName(name, tail);
  }

  lemma ExtrasThenSpec(extras: seq<string>, spec: string)
    requires spec != [] && spec[0] == '>'
    ensures ExtrasText(extras) + spec != [] && !IsNameChar((ExtrasText(extras) + spec)[0])
  {
    if extras == [] {
      assert ExtrasText(extras) + spec == spec;
    }
  }

  /** Every clause of a parsed pin is read back from its operator and version. */
  lemma ClauseReparses(pin: string, c: Clause)
    requires ParseRequirement(pin).Some? && c in ParseRequirement(pin).value.specifier
    ensures ParseClause(c.op + c.version) == Some(c)
  {
    var n := NameLength(pin);
    var rest := ParseExtras(pin[n..]).value.1;
    var specifier := ParseRequirement(pin).value.specifier;
    assert ParseSpecifier(rest) == Some(specifier);
    assert rest != "";
    var pieces := Split(rest, ',');
    assert ParseClauses(pieces) == Some(specifier);
    var i :| 0 <= i < |specifier| && specifier[i] == c;
    assert ParseClause(pieces[i]) == Some(c);
  }

  /** A name, the extras text and a specifier that starts with `>` are read back as
      those three parts. */
  lemma ParseRequirementOf(name: string, tail: string, extras: seq<string>, spec: string, clauses: seq<Clause>)
    requires IsName(name) && tail != [] && !IsNameChar(tail[0])
    requires ParseExtras(tail).Some? && ParseExtras(tail).value.0 == extras && ParseExtras(tail).value.1 == spec
    requires ParseSpecifier(spec) == Some(clauses)
    ensures ParseRequirement(name + tail) == Some(Requirement(name, extras, clauses))
  {
    NameThen(name, tail);
    ParseRequirementFromParts(name + tail, name, tail, extras, spec, clauses);
  }

  /** ParseRequirement takes a pin apart into name, extras and specifier. */
  lemma ParseRequirementFromParts(pin: string, name: string, tail: string, extras: seq<string>,
                                  spec: string, clauses: seq<Clause>)
    requires IsName(name) && NameLength(pin) == |name| && pin[..|name|] == name && pin[|name|..] == tail
    requires ParseExtras(tail).Some? && ParseExtras(tail).value.0 == extras && ParseExtras(tail).value.1 == spec
    requires ParseSpecifier(spec) == Some(clauses)
    ensures ParseRequirement(pin) == Some(Requirement(name, extras, clauses))
  {
  }

  /** The two clauses AddUpperBound writes are read back as the lower bound and the
      synthesised upper bound. */
  lemma BoundsTextReadsBack(lower: Clause, upper: Release)
    requires ParseClause(">=" + lower.version) == Some(lower)
    ensures ParseSpecifier(">=" + lower.version + ",<" + RenderRelease(upper)) ==
            Some([lower, Clause("<", RenderRelease(upper), upper)])
  {
    var upperText := RenderRelease(upper);
    var a := ">=" + lower.version;
    var b := "<" + upperText;
    AtLeastClauseVersion(lower);
    ParseRenderedRelease(upper);
    ParseClauseLess(upperText, upper);
    NoCommaAfter(">=", lower.version, lower.release);
    NoCommaAfter("<", upperText, upper);
    ParseTwoClauses(a, b, lower, Clause("<", upperText, upper));
    CommaJoin(lower.version, upperText);
  }

  /** A clause read back from `>=` and its version text is a `>=` clause whose
      version is a public version. */
  lemma AtLeastClauseVersion(lower: Clause)
    requires ParseClause(">=" + lower.version) == Some(lower)
    ensures lower.op == ">=" && ParseVersion(lower.version) == Some(lower.release)
  {
    var c := ">=" + lower.version;
    assert lower.op == c[..|lower.op|];
    assert |lower.op| == 2 by {
      assert |lower.op| == OperatorLength(c);
      assert c[0] == '>' && c[1] == '=';
    }
  }

  /** An operator without a comma followed by a version has no comma. */
  lemma NoCommaAfter(op: string, v: string, rel: Release)
    requires ParseVersion(v) == Some(rel) && ',' !in op
    ensures ',' !in op + v
  {
    VersionChars(v, rel);
    forall i | 0 <= i < |op + v| ensures (op + v)[i] != ',' {
      if i < |op| {
        assert (op + v)[i] == op[i];
      } else {
        assert (op + v)[i] == v[i - |op|];
      }
    }
  }

  lemma CommaJoin(v: string, u: string)
    ensures ">=" + v + "," + ("<" + u) == ">=" + v + ",<" + u
  {
  }

  lemma ConcatAssoc(a: string, b: string, c: string)
    ensures a + b + c == a + (b + c)
  {
  }

  lemma ConcatAssoc4(x: string, a: string, b: string, c: string, d: string)
    ensures x + a + b + c + d == x + (a + b + c + d)
  {
  }

  /** The text AddUpperBound assembles is read back as its parts. */
  lemma AssembledPinReadsBack(name: string, extras: seq<string>, lower: Clause, upper: Release)
    requires IsName(name) && forall e :: e in extras ==> IsName(e)
    requires ParseClause(">=" + lower.version) == Some(lower)
    ensures ParseRequirement(name + ExtrasText(extras) + ">=" + lower.version + ",<" + RenderRelease(upper)) ==
            Some(Requirement(name, SortedSet(extras), [lower, Clause("<", RenderRelease(upper), upper)]))
  {
    var spec := ">=" + lower.version + ",<" + RenderRelease(upper);
    BoundsTextReadsBack(lower, upper);
    AssembledPinParts(name, extras, spec, [lower, Clause("<", RenderRelease(upper), upper)]);
    ConcatAssoc4(name + ExtrasText(extras), ">=", lower.version, ",<", RenderRelease(upper));
  }

  lemma AssembledPinParts(name: string, extras: seq<string>, spec: string, clauses: seq<Clause>)
    requires IsName(name) && forall e :: e in extras ==> IsName(e)
    requires spec != [] && spec[0] == '>'
    requires ParseSpecifier(spec) == Some(clauses)
    ensures ParseRequirement(name + ExtrasText(extras) + spec) == Some(Requirement(name, SortedSet(extras), clauses))
  {
    var tail := ExtrasText(extras) + spec;
    ExtrasThenSpec(extras, spec);
    ParseExtrasText(extras, spec);
    ParseRequirementOf(name, tail, SortedSet(extras), spec, clauses);
    ConcatAssoc(name, ExtrasText(extras), spec);
  }

  /** What AddUpperBound writes is a pin with the original name, the extras as a
      sorted set, the original `>=` clause and the synthesised `<` clause, in that order. */
  lemma AddUpperBoundReadsBack(pin: string, strategy: PinningStrategy)
    requires ParseRequirement(pin).Some?
    requires !HasUpperBound(ParseRequirement(pin).value.specifier)
    requires LowerBound(ParseRequirement(pin).value.specifier).Some?
    ensures var req := ParseRequirement(pin).value;
            var lower := LowerBound(req.specifier).value;
            var upper := UpperRelease(lower.release, strategy);
            AddUpperBound(pin, strategy).Ok? &&
            ParseRequirement(AddUpperBound(pin, strategy).value) ==
              Some(Requirement(req.name, SortedSet(req.extras),
                               [lower, Clause("<", RenderRelease(upper), upper)]))
  {
    var req := ParseRequirement(pin).value;
    var lower := LowerBound(req.specifier).value;
    ClauseReparses(pin, lower);
    AssembledPinReadsBack(req.name, req.extras, lower, UpperRelease(lower.release, strategy));
  }

  /** Applying AddUpperBound to its own output changes nothing. */
  lemma AddUpperBoundIdempotent(pin: string, strategy: PinningStrategy)
    requires AddUpperBound(pin, strategy).Ok?
    ensures AddUpperBound(AddUpperBound(pin, strategy).value, strategy) == AddUpperBound(pin, strategy)
  {
    var req := ParseRequirement(pin).value;
    if !HasUpperBound(req.specifier) {
      AddUpperBoundReadsBack(pin, strategy);
      var out := AddUpperBound(pin, strategy).value;
      var upper := UpperRelease(LowerBound(req.specifier).value.release, strategy);
      var c := Clause("<", RenderRelease(upper), upper);
      assert c in ParseRequirement(out).value.specifier;
    }
  }

  // ---------------------------------------------------------------------------
  // Textual flagging against parsed fixing

  /** The rule's test for a missing upper bound: the pin text has a `>` and no `<`. */
  predicate Flagged(pin: string)
  {
    '>' in pin && '<' !in pin
  }

  lemma {:induction false} PartCharInJoin(parts: seq<string>, sep: char, i: nat, k: nat)
    requires i < |parts| && k < |parts[i]|
    ensures parts[i][k] in Join(parts, sep)
  {
    if i == 0 {
      if |parts| > 1 {
        assert Join(parts, sep) == parts[0] + [sep] + Join(parts[1..], sep);
        assert Join(parts, sep)[k] == parts[0][k];
      }
    } else {
      assert parts[i] == parts[1..][i - 1];
      PartCharInJoin(parts[1..], sep, i - 1, k);
      var tail := Join(parts[1..], sep);
      assert Join(parts, sep) == parts[0] + [sep] + tail;
      var j :| 0 <= j < |tail| && tail[j] == parts[i][k];
      assert Join(parts, sep)[|parts[0]| + 1 + j] == tail[j];
    }
  }

  /** The specifier text of a parsed pin: what follows its name and extras. */
  lemma SpecifierTextOf(pin: string)
    requires ParseRequirement(pin).Some?
    ensures var rest := ParseExtras(pin[NameLength(pin)..]).value.1;
            ParseSpecifier(rest) == Some(ParseRequirement(pin).value.specifier) &&
            forall ch :: ch in rest ==> ch in pin
  {
    var n := NameLength(pin);
    var tail := pin[n..];
    var rest := ParseExtras(tail).value.1;
    SuffixChars(tail, rest);
    assert pin[|pin| - |tail|..] == tail;
    SuffixChars(pin, tail);
  }

  /** Every character of a suffix occurs in the text. */
  lemma SuffixChars(s: string, t: string)
    requires |t| <= |s| && s[|s| - |t|..] == t
    ensures forall ch :: ch in t ==> ch in s
  {
    forall ch | ch in t ensures ch in s {
      var j :| 0 <= j < |t| && t[j] == ch;
      assert s[|s| - |t| + j] == ch;
    }
  }

  /** A specifier with a `<` or `<=` clause has a `<` in its text. */
  lemma LessInSpecifier(rest: string, specifier: seq<Clause>)
    requires ParseSpecifier(rest) == Some(specifier) && HasUpperBound(specifier)
    ensures '<' in rest
  {
    assert rest != "";
    var pieces := Split(rest, ',');
    assert ParseClauses(pieces) == Some(specifier);
    var c :| c in specifier && (c.op == "<" || c.op == "<=");
    var i :| 0 <= i < |specifier| && specifier[i] == c;
    assert ParseClause(pieces[i]) == Some(c);
    assert pieces[i] == c.op + c.version;
    assert pieces[i][0] == '<';
    PartCharInJoin(pieces, ',', i, 0);
    assert Join(pieces, ',') == rest;
  }

  /** A clause that caps the version from above is written with a `<` in the pin. */
  lemma UpperBoundMentionsLess(pin: string)
    requires ParseRequirement(pin).Some?
    ensures HasUpperBound(ParseRequirement(pin).value.specifier) ==> '<' in pin
  {
    SpecifierTextOf(pin);
    var rest := ParseExtras(pin[NameLength(pin)..]).value.1;
    if HasUpperBound(ParseRequirement(pin).value.specifier) {
      LessInSpecifier(rest, ParseRequirement(pin).value.specifier);
    }
  }

  /** A flagged pin that AddUpperBound accepts comes back rewritten and no longer
      flagged. */
  lemma FixedPinNotFlagged(pin: string, strategy: PinningStrategy)
    requires Flagged(pin) && AddUpperBound(pin, strategy).Ok?
    ensures AddUpperBound(pin, strategy).value != pin
    ensures !Flagged(AddUpperBound(pin, strategy).value)
  {
    UpperBoundMentionsLess(pin);
    var req := ParseRequirement(pin).value;
    var lower := LowerBound(req.specifier).value;
    var head := req.name + ExtrasText(req.extras) + ">=" + lower.version;
    var upperText := RenderRelease(UpperRelease(lower.release, strategy));
    LessAfterComma(head, upperText);
  }

  lemma LessAfterComma(head: string, tail: string)
    ensures '<' in head + ",<" + tail
  {
    assert (head + ",<" + tail)[|head| + 1] == '<';
  }

  /** A single clause is read back as a one-clause specifier. */
  lemma ParseSingleClause(spec: string, c: Clause)
    requires ParseClause(spec) == Some(c) && ',' !in spec
    ensures ParseSpecifier(spec) == Some([c])
  {
    ParseClausesOne(spec, c);
    assert Split(spec, ',') == [spec];
  }

  /** `name>v` is read back as the name with the single clause `>v`. */
  lemma ParseGreaterPin(name: string, v: string, rel: Release)
    requires IsName(name) && ParseVersion(v) == Some(rel)
    ensures ParseRequirement(name + ">" + v) == Some(Requirement(name, [], [Clause(">", v, rel)]))
  {
    var spec := ">" + v;
    var c := Clause(">", v, rel);
    VersionChars(v, rel);
    ParseClauseGreater(v, rel);
    ParseSingleClause(spec, c);
    ParseExtrasAbsent(spec);
    ParseRequirementOf(name, spec, [], spec, [c]);
    ConcatAssoc(name, ">", v);
  }

  /** `name>=v` is read back as the name with the single clause `>=v`. */
  lemma ParseAtLeastPin(name: string, v: string, rel: Release)
    requires IsName(name) && ParseVersion(v) == Some(rel)
    ensures ParseRequirement(name + ">=" + v) == Some(Requirement(name, [], [Clause(">=", v, rel)]))
  {
    var spec := ">=" + v;
    var c := Clause(">=", v, rel);
    VersionChars(v, rel);
    ParseClauseAtLeast(v, rel);
    ParseSingleClause(spec, c);
    ParseExtrasAbsent(spec);
    ParseRequirementOf(name, spec, [], spec, [c]);
    ConcatAssoc(name, ">=", v);
  }

  /** The common case: a plain `name>=v` pin gets `,<upper` appended and nothing else
      changes. */
  lemma AddUpperBoundOfAtLeastPin(name: string, v: string, rel: Release, strategy: PinningStrategy)
    requires IsName(name) && ParseVersion(v) == Some(rel)
    ensures AddUpperBound(name + ">=" + v, strategy) ==
            Ok(name + ">=" + v + ",<" + RenderRelease(UpperRelease(rel, strategy)))
  {
    ParseAtLeastPin(name, v, rel);
    SingleLowerBound(Clause(">=", v, rel));
    AcceptedWithLowerBound(name + ">=" + v, Requirement(name, [], [Clause(">=", v, rel)]), Clause(">=", v, rel), strategy);
    EmptyPrefix(name);
  }

  lemma EmptyPrefix(name: string)
    ensures name + "" == name
  {
  }

  lemma AcceptedWithLowerBound(pin: string, req: Requirement, lower: Clause, strategy: PinningStrategy)
    requires ParseRequirement(pin) == Some(req)
    requires !HasUpperBound(req.specifier) && LowerBound(req.specifier) == Some(lower)
    ensures AddUpperBound(pin, strategy) ==
            Ok(req.name + ExtrasText(req.extras) + ">=" + lower.version + ",<" +
               RenderRelease(UpperRelease(lower.release, strategy)))
  {
  }

  lemma SingleLowerBound(c: Clause)
    requires c.op == ">="
    ensures !HasUpperBound([c]) && LowerBound([c]) == Some(c)
  {
  }

  /** A pin whose only clause is `>` is flagged by the upper-bound rule ... */
  lemma GreaterThanIsFlagged(name: string, v: string, rel: Release)
    requires IsName(name) && ParseVersion(v) == Some(rel)
    ensures Flagged(name + ">" + v)
  {
    VersionChars(v, rel);
    NameChars(name);
    assert (name + ">" + v)[|name|] == '>';
  }

  /** ... yet AddUpperBound rejects it for want of a `>=` clause. */
  lemma GreaterThanIsNotFixable(name: string, v: string, rel: Release, strategy: PinningStrategy)
    requires IsName(name) && ParseVersion(v) == Some(rel)
    ensures AddUpperBound(name + ">" + v, strategy) == Err(NoLowerBound(name + ">" + v))
  {
    var pin := name + ">" + v;
    var req := Requirement(name, [], [Clause(">", v, rel)]);
    ParseGreaterPin(name, v, rel);
    SingleGreater(Clause(">", v, rel));
    RejectedWithoutLowerBound(pin, req, strategy);
  }

  lemma SingleGreater(c: Clause)
    requires c.op == ">"
    ensures forall d :: d in [c] ==> d.op != ">=" && d.op != "<" && d.op != "<="
  {
    assert c.op != ">=" && c.op != "<" && c.op != "<=";
  }

  lemma RejectedWithoutLowerBound(pin: string, req: Requirement, strategy: PinningStrategy)
    requires ParseRequirement(pin) == Some(req)
    requires forall c :: c in req.specifier ==> c.op != ">=" && c.op != "<" && c.op != "<="
    ensures AddUpperBound(pin, strategy) == Err(NoLowerBound(pin))
  {
  }
}
