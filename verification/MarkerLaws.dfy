/**
 * What the marker evaluator decides, said without its own comparison functions
 * (tools/sbom_metadata.py, lines 64 to 159).
 */
module MarkerLaws {
  import opened Prelude
  import opened AppVersion
  import opened SbomMarkers

  // -------------------------------------------------------------------------
  // The operators on versions
  // -------------------------------------------------------------------------

  /** a is smaller than b at the first place where they differ, missing places counting as zero. */
  ghost predicate Smaller(a: seq<nat>, b: seq<nat>) {
    exists k: nat :: FirstLess(a, b, k)
  }

  ghost predicate Same(a: seq<nat>, b: seq<nat>) {
    forall i: nat :: SameAt(a, b, i)
  }

  /** What each operator says of two versions; the others do not apply to versions. */
  ghost function Relation(op: Op, a: seq<nat>, b: seq<nat>): Option<bool> {
    match op
    case Lt => Some(Smaller(a, b))
    case LtE => Some(Smaller(a, b) || Same(a, b))
    case Gt => Some(Smaller(b, a))
    case GtE => Some(Smaller(b, a) || Same(a, b))
    case Eq => Some(Same(a, b))
    case NotEq => Some(!Same(a, b))
    case In => None
    case NotIn => None
    case OtherOp => None
  }

  /** Less means less at the first difference, greater the same with the sides exchanged, equal the same everywhere. */
  lemma OperatorsExactly(op: Op, a: seq<nat>, b: seq<nat>)
    ensures CompareVersions(op, a, b) == Relation(op, a, b)
  {
    hide VersionLess, VersionEqual, FirstLess, SameAt;
    VersionLessExactly(a, b);
    VersionLessExactly(b, a);
    VersionEqualExactly(a, b);
  }

  // -------------------------------------------------------------------------
  // A version text
  // -------------------------------------------------------------------------

  /** The parts are runs of digits without a point, with these values. */
  ghost predicate Spelled(parts: seq<string>, values: seq<nat>, u: Numerals) {
    && |parts| == |values|
    && forall i | 0 <= i < |parts| :: parts[i] != "" && AllDigits(parts[i], u) && ValueOf(parts[i], u) == values[i]
  }

  lemma {:induction false} ReleasesSpelled(parts: seq<string>, values: seq<nat>, u: Numerals)
    ensures ReadReleases(parts, u) == Some(values) <==> Spelled(parts, values, u)
    decreases |parts|
  {
    hide AllDigits, ValueOf;
    if parts == [] {
    } else if values != [] {
      ReleasesSpelled(parts[1..], values[1..], u);
      assert values == [values[0]] + values[1..];
      if Spelled(parts, values, u) {
        assert Spelled(parts[1..], values[1..], u);
      }
      if Spelled(parts[1..], values[1..], u) {
        assert forall i | 1 <= i < |parts| :: parts[i] == parts[1..][i - 1] && values[i] == values[1..][i - 1];
      }
      if ReadReleases(parts, u) == Some(values) {
        assert ([ValueOf(parts[0], u)] + ReadReleases(parts[1..], u).value)[1..] == ReadReleases(parts[1..], u).value;
      }
    }
  }

  /** A version text is its numbers with points between them. */
  lemma ReleaseExactly(s: string, values: seq<nat>, u: Numerals)
    ensures SbomMarkers.ReleaseOf(s, u) == Some(values)
            <==> exists parts: seq<string> ::
                   parts != [] && JoinWith(parts, '.') == s && Spelled(parts, values, u)
  {
    hide AllDigits, ValueOf, SplitOn, JoinWith;
    SplitJoins(s, '.');
    ReleasesSpelled(SplitOn(s, '.'), values, u);
    if parts: seq<string> :| parts != [] && JoinWith(parts, '.') == s && Spelled(parts, values, u) {
      forall i | 0 <= i < |parts| ensures '.' !in parts[i] {
        DigitsNoPoint(parts[i], u);
      }
      JoinSplits(parts, '.');
    }
  }

  lemma DigitsNoPoint(t: string, u: Numerals)
    requires AllDigits(t, u)
    ensures '.' !in t
  {
  }

  // -------------------------------------------------------------------------
  // The environment
  // -------------------------------------------------------------------------

  /** The variables every platform shares. */
  lemma PythonOf(platform: Platform, extra: string)
    ensures var env := EnvironmentOf(platform, extra);
            && "python_version" in env && "python_full_version" in env && "implementation_version" in env
            && env["python_version"] == "3.12"
            && env["python_full_version"] == "3.12.14" && env["implementation_version"] == "3.12.14"
            && env["implementation_name"] == "cpython" && env["platform_python_implementation"] == "CPython"
            && env["os_name"] == "posix" && env["extra"] == extra
  {
  }

  lemma Digit(t: string, u: Numerals)
    requires |t| == 1 && '0' <= t[0] <= '9'
    ensures AllDigits(t, u) && ValueOf(t, u) == t[0] as nat - '0' as nat
  {
    assert t[..0] == "";
  }

  lemma TwoDigits(t: string, u: Numerals)
    requires |t| == 2 && '0' <= t[0] <= '9' && '0' <= t[1] <= '9'
    ensures AllDigits(t, u) && ValueOf(t, u) == 10 * (t[0] as nat - '0' as nat) + (t[1] as nat - '0' as nat)
  {
    Digit(t[..1], u);
  }

  /** The version of the Python that is described, read as numbers. */
  lemma PythonReads(u: Numerals)
    ensures SbomMarkers.ReleaseOf("3.12", u) == Some([3, 12])
    ensures SbomMarkers.ReleaseOf("3.12.14", u) == Some([3, 12, 14])
  {
    hide SbomMarkers.ReleaseOf, AllDigits, ValueOf;
    Digit("3", u);
    TwoDigits("12", u);
    TwoDigits("14", u);
    assert JoinWith(["12"], '.') == "12" && JoinWith(["14"], '.') == "14";
    assert ["3", "12"][1..] == ["12"] && ["12", "14"][1..] == ["14"] && ["3", "12", "14"][1..] == ["12", "14"];
    assert JoinWith(["12", "14"], '.') == "12.14";
    assert JoinWith(["3", "12"], '.') == "3.12" && Spelled(["3", "12"], [3, 12], u);
    assert JoinWith(["3", "12", "14"], '.') == "3.12.14" && Spelled(["3", "12", "14"], [3, 12, 14], u);
    ReleaseExactly("3.12", [3, 12], u);
    ReleaseExactly("3.12.14", [3, 12, 14], u);
  }

  /** What tells the four platforms apart. */
  lemma PlatformsOf(extra: string)
    ensures var env := EnvironmentOf(LinuxAarch64, extra);
            env["sys_platform"] == "linux" && env["platform_system"] == "Linux" && env["platform_machine"] == "aarch64"
    ensures var env := EnvironmentOf(LinuxX86, extra);
            env["sys_platform"] == "linux" && env["platform_system"] == "Linux" && env["platform_machine"] == "x86_64"
    ensures var env := EnvironmentOf(MacosAarch64, extra);
            env["sys_platform"] == "darwin" && env["platform_system"] == "Darwin" && env["platform_machine"] == "arm64"
    ensures var env := EnvironmentOf(MacosX86, extra);
            env["sys_platform"] == "darwin" && env["platform_system"] == "Darwin" && env["platform_machine"] == "x86_64"
  {
  }

  // -------------------------------------------------------------------------
  // Comparisons
  // -------------------------------------------------------------------------

  /** The text of a variable or of a literal. */
  function Side(n: Node, env: Environment): Option<string> {
    match n
    case Text(text) => Some(text)
    case Name(id) => if id in env then Some(env[id]) else None
    case _ => None
  }

  /** A comparison of two simple sides is that of their texts. */
  lemma CompareVisits(left: Node, op: Op, right: Node, env: Environment, u: Numerals)
    requires (left.Name? || left.Text?) && (right.Name? || right.Text?)
    ensures var a, b := Side(left, env), Side(right, env);
            MarkerApplies(Parsed(Compare(left, op, right)), env, u)
            == if a.None? || b.None? then None else CompareSides(left, op, right, a.value, b.value, u)
  {
    hide CompareSides;
    assert Nodes(Compare(left, op, right)) <= 6;
    SideVisits(left, env, u);
    SideVisits(right, env, u);
  }

  lemma SideVisits(n: Node, env: Environment, u: Numerals)
    requires n.Name? || n.Text?
    ensures Visit(n, 1, env, u) == if Side(n, env).None? then None else Some(Str(Side(n, env).value))
  {
  }

  /** The numbers of the Python that is described. */
  function PythonNumbers(id: string): seq<nat> {
    if id == "python_version" then [3, 12] else [3, 12, 14]
  }

  /**
   * A comparison of a version variable with a text, on either side: it fails unless
   * the text is a version, and says what its operator says of the numbers.
   */
  lemma VersionMarkerExactly(id: string, op: Op, text: string, platform: Platform, extra: string, u: Numerals)
    requires id in {"python_version", "python_full_version", "implementation_version"} && !op.In? && !op.NotIn?
    ensures var env, numbers := EnvironmentOf(platform, extra), SbomMarkers.ReleaseOf(text, u);
            && MarkerApplies(Parsed(Compare(Name(id), op, Text(text))), env, u)
               == (if numbers.None? then None else Relation(op, PythonNumbers(id), numbers.value))
            && MarkerApplies(Parsed(Compare(Text(text), op, Name(id))), env, u)
               == (if numbers.None? then None else Relation(op, numbers.value, PythonNumbers(id)))
  {
    hide SbomMarkers.ReleaseOf, CompareVersions, Relation, EnvironmentOf;
    PythonOf(platform, extra);
    PythonReads(u);
    var env := EnvironmentOf(platform, extra);
    assert SbomMarkers.ReleaseOf(env[id], u) == Some(PythonNumbers(id));
    CompareVisits(Name(id), op, Text(text), env, u);
    CompareVisits(Text(text), op, Name(id), env, u);
    if SbomMarkers.ReleaseOf(text, u).Some? {
      OperatorsExactly(op, PythonNumbers(id), SbomMarkers.ReleaseOf(text, u).value);
      OperatorsExactly(op, SbomMarkers.ReleaseOf(text, u).value, PythonNumbers(id));
    }
  }

  /** The part stands somewhere in the whole. */
  ghost predicate Within(part: string, whole: string) {
    exists before: string, after: string :: Joined(whole, before, part, after)
  }

  lemma ContainsExactly(part: string, whole: string)
    ensures Contains(part, whole) <==> Within(part, whole)
  {
    if Contains(part, whole) {
      var i :| 0 <= i <= |whole| && PartAt(part, whole, i);
      assert whole == whole[..i] + whole[i..i + |part|] + whole[i + |part|..];
      assert Joined(whole, whole[..i], part, whole[i + |part|..]);
    }
    if before: string, after: string :| Joined(whole, before, part, after) {
      assert whole[|before|..|before| + |part|] == part;
      assert PartAt(part, whole, |before|);
    }
  }

  /** What an operator says of two texts: equality and occurrence; there is no order of texts. */
  ghost function TextRelation(op: Op, a: string, b: string): Option<bool> {
    match op
    case Eq => Some(a == b)
    case NotEq => Some(a != b)
    case In => Some(Within(a, b))
    case NotIn => Some(!Within(a, b))
    case Lt => None
    case LtE => None
    case Gt => None
    case GtE => None
    case OtherOp => None
  }

  /** A comparison of any other variable is one of texts; both sides of one with the extra are normalized first. */
  lemma TextMarkerExactly(id: string, op: Op, text: string, env: Environment, u: Numerals)
    requires id !in {"python_version", "python_full_version", "implementation_version"}
    ensures MarkerApplies(Parsed(Compare(Name(id), op, Text(text))), env, u)
            == if id in env then TextsRelated(id, op, env[id], text) else None
    ensures MarkerApplies(Parsed(Compare(Text(text), op, Name(id))), env, u)
            == if id in env then TextsRelated(id, op, text, env[id]) else None
  {
    hide Contains, Within, Normalize, SbomMarkers.ReleaseOf;
    CompareVisits(Name(id), op, Text(text), env, u);
    CompareVisits(Text(text), op, Name(id), env, u);
    if id in env {
      SidesRelated(id, op, env[id], text);
      SidesRelated(id, op, text, env[id]);
    }
  }

  ghost function TextsRelated(id: string, op: Op, a: string, b: string): Option<bool> {
    if id != "extra" then TextRelation(op, a, b)
    else if NormalizeExtra(a).None? || NormalizeExtra(b).None? then None
    else TextRelation(op, NormalizeExtra(a).value, NormalizeExtra(b).value)
  }

  lemma SidesRelated(id: string, op: Op, a: string, b: string)
    ensures TextsRelated(id, op, a, b)
            == if id != "extra" then CompareTexts(op, a, b)
               else if NormalizeExtra(a).None? || NormalizeExtra(b).None? then None
               else CompareTexts(op, NormalizeExtra(a).value, NormalizeExtra(b).value)
  {
    hide Contains, Within, Normalize;
    ContainsExactly(a, b);
    if NormalizeExtra(a).Some? && NormalizeExtra(b).Some? {
      ContainsExactly(NormalizeExtra(a).value, NormalizeExtra(b).value);
    }
  }

  // -------------------------------------------------------------------------
  // Normalized names
  // -------------------------------------------------------------------------

  /** The small letter of a capital one; digits and small letters stay. */
  function Small(c: char): char {
    if 'A' <= c <= 'Z' then (c as int - 'A' as int + 'a' as int) as char else c
  }

  predicate IsWord(s: string) {
    s != "" && forall c | c in s :: 'a' <= c <= 'z' || 'A' <= c <= 'Z' || '0' <= c <= '9'
  }

  predicate IsRun(s: string) {
    s != "" && forall c | c in s :: c == '-' || c == '_' || c == '.'
  }

  function SmallWord(s: string): (t: string)
    ensures |t| == |s| && forall i | 0 <= i < |s| :: t[i] == Small(s[i])
  {
    seq(|s|, i requires 0 <= i < |s| => Small(s[i]))
  }

  lemma {:induction false} WordAppends(s: string, word: string)
    requires IsWord(word)
    ensures Collapse(s + word) == Collapse(s) + SmallWord(word)
    decreases |word|
  {
    var init, last := word[..|word| - 1], word[|word| - 1];
    assert last in word && forall c | c in init :: c in word;
    assert (s + word)[..|s + word| - 1] == s + init;
    if init == "" {
      assert s + init == s && SmallWord(word) == [Small(last)];
    } else {
      WordAppends(s, init);
      assert SmallWord(word) == SmallWord(init) + [Small(last)];
    }
  }

  lemma {:induction false} RunAppends(s: string, run: string)
    requires s != "" && !Joiner(s[|s| - 1]) && IsRun(run)
    ensures Collapse(s + run) == Collapse(s) + "-"
    decreases |run|
  {
    var init, last := run[..|run| - 1], run[|run| - 1];
    assert last in run && forall c | c in init :: c in run;
    assert (s + run)[..|s + run| - 1] == s + init;
    if init == "" {
      assert s + init == s;
    } else {
      RunAppends(s, init);
      assert init[|init| - 1] in init;
    }
  }

  /**
   * The normal form of a name, word by word: a word has its letters made small, and
   * a run of hyphens, underscores and points after a word becomes one hyphen.
   */
  lemma NormalFormExactly(s: string, word: string, run: string, more: string)
    requires IsWord(word) && IsRun(run) && IsWord(more)
    ensures |word| <= 200 ==> Normalize(word) == Some(SmallWord(word))
    ensures Collapse(s + word + run + more) == Collapse(s) + SmallWord(word) + "-" + SmallWord(more)
  {
    hide Collapse, IsWord, IsRun, SmallWord, Normalize;
    WordNormalizes(word);
    WordAppends(s, word);
    WordEnds(s, word);
    RunAppends(s + word, run);
    WordAppends(s + word + run, more);
  }

  lemma WordEnds(s: string, word: string)
    requires IsWord(word)
    ensures s + word != "" && !Joiner((s + word)[|s + word| - 1])
  {
    assert word[|word| - 1] in word;
  }

  lemma WordNormalizes(word: string)
    requires IsWord(word)
    ensures |word| <= 200 ==> Normalize(word) == Some(SmallWord(word))
  {
    hide Collapse, SmallWord;
    EmptyCollapses();
    WordAppends("", word);
    assert "" + word == word && "" + SmallWord(word) == SmallWord(word);
    if |word| <= 200 { WordValid(word); }
  }

  /** A name has one to two hundred letters, digits and joiners, and begins with no joiner; all else is refused. */
  lemma NamesExactly(s: string)
    ensures Normalize(s).Some? <==>
              && 1 <= |s| <= 200
              && s[0] != '-' && s[0] != '_' && s[0] != '.'
              && forall c | c in s ::
                   'a' <= c <= 'z' || 'A' <= c <= 'Z' || '0' <= c <= '9' || c == '-' || c == '_' || c == '.'
  {
    hide Collapse;
    assert s != "" ==> s[0] in s;
  }

  lemma EmptyCollapses()
    ensures Collapse("") == ""
  {
  }

  lemma WordValid(word: string)
    requires IsWord(word) && |word| <= 200
    ensures ValidName(word)
  {
    assert word[0] in word;
  }

  // -------------------------------------------------------------------------
  // Junctions
  // -------------------------------------------------------------------------

  predicate IsBool(v: Option<Value>) {
    v.Some? && v.value.Bool?
  }

  lemma {:induction false} VisitEach(values: seq<Node>, depth: nat, env: Environment, u: Numerals)
    ensures var r := VisitAll(values, depth, env, u);
            && (r.Some? <==> forall i | 0 <= i < |values| :: IsBool(Visit(values[i], depth, env, u)))
            && (r.Some? ==> |r.value| == |values|
                            && forall i | 0 <= i < |values| ::
                                  Visit(values[i], depth, env, u) == Some(Bool(r.value[i])))
    decreases |values|
  {
    hide Visit;
    if values != [] {
      VisitEach(values[1..], depth, env, u);
      assert forall i | 1 <= i < |values| :: values[i] == values[1..][i - 1];
    }
  }

  /**
   * A junction is the conjunction or the disjunction of its parts. None is skipped:
   * it fails if any of them fails or is a text.
   */
  lemma JunctionExactly(all: bool, values: seq<Node>, depth: nat, env: Environment, u: Numerals)
    requires depth <= 20
    ensures var r := Visit(Junction(all, values), depth, env, u);
            && (r.Some? <==> forall i | 0 <= i < |values| :: IsBool(Visit(values[i], depth + 1, env, u)))
            && (r.Some? ==>
                  r == Some(Bool(if all then forall v | v in values :: Visit(v, depth + 1, env, u) == Some(Bool(true))
                                 else exists v | v in values :: Visit(v, depth + 1, env, u) == Some(Bool(true)))))
  {
    hide VisitAll;
    VisitEach(values, depth + 1, env, u);
    var results := VisitAll(values, depth + 1, env, u);
    if results.Some? {
      if v :| v in values && Visit(v, depth + 1, env, u) == Some(Bool(true)) {
        var i :| 0 <= i < |values| && values[i] == v;
        assert results.value[i] in results.value;
      }
      if true in results.value {
        var i :| 0 <= i < |values| && results.value[i];
        assert values[i] in values;
      }
      if false in results.value {
        var i :| 0 <= i < |values| && !results.value[i];
        assert values[i] in values;
      }
    }
  }

  /** The bounds: twenty levels below the root, and 256 nodes with the root of the parse. */
  lemma BoundsRefuse(m: Marker, n: Node, depth: nat, env: Environment, u: Numerals)
    ensures depth > 20 ==> Visit(n, depth, env, u).None?
    ensures m.Refused? ==> MarkerApplies(m, env, u).None?
    ensures m.Always? ==> MarkerApplies(m, env, u) == Some(true)
    ensures m.Parsed? ==>
              MarkerApplies(m, env, u)
              == if Nodes(m.tree) > 255 || !IsBool(Visit(m.tree, 0, env, u)) then None
                 else Some(Visit(m.tree, 0, env, u).value.b)
  {
  }
}
