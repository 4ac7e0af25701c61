/**
 * Dependency markers: the environment of a platform, the evaluator and its
 * version comparison (tools/sbom_metadata.py, lines 25 to 159).
 * A marker is given as its parsed expression.
 */
module SbomMarkers {
  import opened Prelude
  import opened AppVersion

  datatype Op = Eq | NotEq | Lt | LtE | Gt | GtE | In | NotIn | OtherOp

  datatype Node =
    | Text(text: string)
    | Name(id: string)
    | Junction(all: bool, values: seq<Node>)
    | Compare(left: Node, op: Op, right: Node)
    | Unsupported

  /** A declaration without a marker always applies; one that is too long or does not parse is refused. */
  datatype Marker = Always | Refused | Parsed(tree: Node)

  datatype Value = Str(s: string) | Bool(b: bool)

  type Environment = map<string, string>

  const MAX_DEPTH := 20
  const MAX_NODES := 256

  const VERSION_MARKERS := {"python_version", "python_full_version", "implementation_version"}

  const PYTHON_VERSION := "3.12.14"

  datatype Platform = LinuxAarch64 | LinuxX86 | MacosAarch64 | MacosX86

  /** environment (lines 64 to 79). */
  function EnvironmentOf(platform: Platform, extra: string): Environment {
    var mac := platform.MacosAarch64? || platform.MacosX86?;
    map[
      "sys_platform" := if mac then "darwin" else "linux",
      "os_name" := "posix",
      "platform_system" := if mac then "Darwin" else "Linux",
      "platform_machine" :=
        if platform.LinuxX86? || platform.MacosX86? then "x86_64" else if mac then "arm64" else "aarch64",
      "platform_python_implementation" := "CPython",
      "implementation_name" := "cpython",
      "python_version" := "3.12",
      "python_full_version" := PYTHON_VERSION,
      "implementation_version" := PYTHON_VERSION,
      "extra" := extra]
  }

  // -------------------------------------------------------------------------
  // Names
  // -------------------------------------------------------------------------

  predicate Letter(c: char) {
    'a' <= c <= 'z' || 'A' <= c <= 'Z' || '0' <= c <= '9'
  }

  predicate Joiner(c: char) {
    c == '-' || c == '_' || c == '.'
  }

  predicate ValidName(s: string) {
    && 1 <= |s| <= 200 && Letter(s[0])
    && forall c | c in s :: Letter(c) || Joiner(c)
  }

  function Lower(c: char): char {
    if 'A' <= c <= 'Z' then (c as int + 32) as char else c
  }

  /** Runs of joiners become one hyphen, letters become small. */
  function Collapse(s: string): string {
    if s == "" then ""
    else
      var before, c := s[..|s| - 1], s[|s| - 1];
      if !Joiner(c) then Collapse(before) + [Lower(c)]
      else if before != "" && Joiner(before[|before| - 1]) then Collapse(before)
      else Collapse(before) + "-"
  }

  /** normalize (lines 25 to 28). */
  function Normalize(s: string): Option<string> {
    if ValidName(s) then Some(Collapse(s)) else None
  }

  /** Small letters, digits, and single hyphens. */
  ghost predicate Flat(t: string) {
    && (forall c | c in t :: (Letter(c) && Lower(c) == c) || c == '-')
    && (forall i | 0 <= i < |t| - 1 :: t[i] != '-' || t[i + 1] != '-')
  }

  lemma {:induction false} CollapseShape(s: string)
    requires forall c | c in s :: Letter(c) || Joiner(c)
    ensures var t := Collapse(s);
            && |t| <= |s|
            && Flat(t)
            && (t == "" <==> s == "")
            && (s != "" ==> (t[|t| - 1] == '-' <==> Joiner(s[|s| - 1])))
            && (s != "" && Letter(s[0]) ==> Letter(t[0]))
  {
    if s != "" {
      var before, last := s[..|s| - 1], s[|s| - 1];
      assert last in s;
      CollapseShape(before);
    }
  }

  lemma FlatLast(t: string)
    requires Flat(t) && t != ""
    ensures var before, last := t[..|t| - 1], t[|t| - 1];
            && Flat(before) && t == before + [last]
            && (if Joiner(last) then last == '-' && (before == "" || !Joiner(before[|before| - 1]))
                else Lower(last) == last)
  {
    var before, last := t[..|t| - 1], t[|t| - 1];
    assert last in t;
    assert forall i | 0 <= i < |before| :: before[i] == t[i] && t[i] in t;
  }

  lemma {:induction false} CollapseFixed(t: string)
    requires Flat(t)
    ensures Collapse(t) == t
  {
    hide Flat, Joiner, Lower;
    if t != "" {
      FlatLast(t);
      CollapseFixed(t[..|t| - 1]);
    }
  }

  lemma FlatValid(s: string)
    requires Flat(s) && 1 <= |s| <= 200 && Letter(s[0])
    ensures ValidName(s)
  {
  }

  /** Normalizing again changes nothing. */
  lemma NormalizeIdempotent(s: string)
    requires Normalize(s).Some?
    ensures Normalize(Normalize(s).value) == Normalize(s)
  {
    hide Flat, Collapse;
    CollapseShape(s);
    CollapseFixed(Collapse(s));
    FlatValid(Collapse(s));
  }

  // -------------------------------------------------------------------------
  // Versions
  // -------------------------------------------------------------------------

  function ReadReleases(parts: seq<string>, u: Numerals): Option<seq<nat>> {
    if parts == [] then Some([])
    else
      var rest :- ReadReleases(parts[1..], u);
      if parts[0] != "" && AllDigits(parts[0], u) then Some([ValueOf(parts[0], u)] + rest) else None
  }

  /** The numbers between the points of a version text. */
  function ReleaseOf(s: string, u: Numerals): Option<seq<nat>> {
    ReadReleases(SplitOn(s, '.'), u)
  }

  function Padded(a: seq<nat>, width: nat): (p: seq<nat>)
    ensures |p| == if |a| < width then width else |a|
    ensures forall i | 0 <= i < |p| :: p[i] == At(a, i)
  {
    a + seq(if |a| < width then width - |a| else 0, _ => 0)
  }

  function At(a: seq<nat>, i: nat): nat {
    if i < |a| then a[i] else 0
  }

  predicate TupleLess(a: seq<nat>, b: seq<nat>)
    requires |a| == |b|
  {
    a != [] && (a[0] < b[0] || (a[0] == b[0] && TupleLess(a[1..], b[1..])))
  }

  function Width(a: seq<nat>, b: seq<nat>): nat {
    if |a| < |b| then |b| else |a|
  }

  predicate VersionLess(a: seq<nat>, b: seq<nat>) {
    TupleLess(Padded(a, Width(a, b)), Padded(b, Width(a, b)))
  }

  predicate VersionEqual(a: seq<nat>, b: seq<nat>) {
    Padded(a, Width(a, b)) == Padded(b, Width(a, b))
  }

  // -------------------------------------------------------------------------
  // The evaluator
  // -------------------------------------------------------------------------

  /** How many nodes a walk over the parsed expression meets, operators and contexts included. */
  function Nodes(n: Node): nat {
    match n
    case Text(_) => 1
    case Name(_) => 2
    case Junction(_, values) => 2 + NodesOf(values)
    case Compare(left, _, right) => 2 + Nodes(left) + Nodes(right)
    case Unsupported => 1
  }

  function NodesOf(values: seq<Node>): nat {
    if values == [] then 0 else Nodes(values[0]) + NodesOf(values[1..])
  }

  predicate IsVersionMarker(n: Node) {
    n.Name? && n.id in VERSION_MARKERS
  }

  predicate IsExtra(n: Node) {
    n.Name? && n.id == "extra"
  }

  predicate PartAt(part: string, whole: string, i: nat) {
    i + |part| <= |whole| && whole[i..i + |part|] == part
  }

  predicate Contains(part: string, whole: string) {
    exists i | 0 <= i <= |whole| :: PartAt(part, whole, i)
  }

  function CompareVersions(op: Op, a: seq<nat>, b: seq<nat>): Option<bool> {
    match op
    case Eq => Some(VersionEqual(a, b))
    case NotEq => Some(!VersionEqual(a, b))
    case Lt => Some(VersionLess(a, b))
    case LtE => Some(VersionLess(a, b) || VersionEqual(a, b))
    case Gt => Some(VersionLess(b, a))
    case GtE => Some(VersionLess(b, a) || VersionEqual(a, b))
    case _ => None
  }

  function CompareTexts(op: Op, a: string, b: string): Option<bool> {
    match op
    case Eq => Some(a == b)
    case NotEq => Some(a != b)
    case In => Some(Contains(a, b))
    case NotIn => Some(!Contains(a, b))
    case _ => None
  }

  function NormalizeExtra(s: string): Option<string> {
    if s == "" then Some("") else Normalize(s)
  }

  /** One comparison, once both sides are texts (lines 112 to 154). */
  function CompareSides(left: Node, op: Op, right: Node, a: string, b: string, u: Numerals): Option<bool> {
    if (IsVersionMarker(left) || IsVersionMarker(right)) && op != In && op != NotIn then
      var x :- ReleaseOf(a, u);
      var y :- ReleaseOf(b, u);
      CompareVersions(op, x, y)
    else if IsExtra(left) || IsExtra(right) then
      var x :- NormalizeExtra(a);
      var y :- NormalizeExtra(b);
      CompareTexts(op, x, y)
    else CompareTexts(op, a, b)
  }

  /** visit: no operand is skipped, so an error anywhere is an error of the whole. */
  function Visit(n: Node, depth: nat, env: Environment, u: Numerals): Option<Value> {
    if depth > MAX_DEPTH then None
    else
      match n
      case Text(text) => Some(Str(text))
      case Name(id) => if id in env then Some(Str(env[id])) else None
      case Junction(all, values) =>
        var results :- VisitAll(values, depth + 1, env, u);
        if all then Some(Bool(false !in results)) else Some(Bool(true in results))
      case Compare(left, op, right) =>
        var a :- Visit(left, depth + 1, env, u);
        var b :- Visit(right, depth + 1, env, u);
        if !a.Str? || !b.Str? then None
        else
          var r :- CompareSides(left, op, right, a.s, b.s, u);
          Some(Bool(r))
      case Unsupported => None
  }

  function VisitAll(values: seq<Node>, depth: nat, env: Environment, u: Numerals): Option<seq<bool>> {
    if values == [] then Some([])
    else
      var first :- Visit(values[0], depth, env, u);
      var rest :- VisitAll(values[1..], depth, env, u);
      if first.Bool? then Some([first.b] + rest) else None
  }

  /** marker_applies (lines 82 to 159). */
  function MarkerApplies(m: Marker, env: Environment, u: Numerals): Option<bool> {
    match m
    case Always => Some(true)
    case Refused => None
    case Parsed(tree) =>
      if 1 + Nodes(tree) > MAX_NODES then None
      else
        var v :- Visit(tree, 0, env, u);
        if v.Bool? then Some(v.b) else None
  }

  // -------------------------------------------------------------------------
  // The version order
  // -------------------------------------------------------------------------

  /** The first place where two versions differ, missing places counting as zero, is k, and a is smaller there. */
  ghost predicate FirstLess(a: seq<nat>, b: seq<nat>, k: nat) {
    (forall i: nat | i < k :: At(a, i) == At(b, i)) && At(a, k) < At(b, k)
  }

  ghost predicate SameAt(a: seq<nat>, b: seq<nat>, i: nat) {
    At(a, i) == At(b, i)
  }

  /** Said without padding: the smaller version is smaller at the first difference. */
  lemma {:induction false} TupleLessExactly(p: seq<nat>, q: seq<nat>)
    requires |p| == |q|
    ensures TupleLess(p, q) <==> exists k: nat :: k < |p| && FirstLess(p, q, k)
    decreases |p|
  {
    if p != [] {
      TupleLessExactly(p[1..], q[1..]);
      assert forall i: nat :: At(p[1..], i) == At(p, i + 1) && At(q[1..], i) == At(q, i + 1);
      if p[0] < q[0] {
        assert FirstLess(p, q, 0);
      } else if p[0] == q[0] && TupleLess(p[1..], q[1..]) {
        var k: nat :| k < |p| - 1 && FirstLess(p[1..], q[1..], k);
        forall i: nat | i < k + 1 ensures At(p, i) == At(q, i) {
          if i > 0 { assert At(p[1..], i - 1) == At(q[1..], i - 1); }
        }
        assert FirstLess(p, q, k + 1);
      }
      if k: nat :| k < |p| && FirstLess(p, q, k) {
        if k > 0 {
          assert At(p, 0) == At(q, 0);
          forall i: nat | i < k - 1 ensures At(p[1..], i) == At(q[1..], i) {
            assert At(p, i + 1) == At(q, i + 1);
          }
          assert FirstLess(p[1..], q[1..], k - 1);
        }
      }
    }
  }

  lemma VersionLessExactly(a: seq<nat>, b: seq<nat>)
    ensures VersionLess(a, b) <==> exists k: nat :: FirstLess(a, b, k)
  {
    var w := Width(a, b);
    var p, q := Padded(a, w), Padded(b, w);
    TupleLessExactly(p, q);
    assert forall i: nat :: At(p, i) == At(a, i) && At(q, i) == At(b, i);
    if k: nat :| FirstLess(a, b, k) {
      assert FirstLess(p, q, k) && k < |p|;
    }
    if k: nat :| k < |p| && FirstLess(p, q, k) {
      assert FirstLess(a, b, k);
    }
  }

  lemma VersionEqualExactly(a: seq<nat>, b: seq<nat>)
    ensures VersionEqual(a, b) <==> forall i: nat :: SameAt(a, b, i)
  {
    var w := Width(a, b);
    var p, q := Padded(a, w), Padded(b, w);
    if p == q {
      forall i: nat ensures SameAt(a, b, i) {
        if i < w { assert p[i] == q[i]; }
      }
    }
    if forall i: nat :: SameAt(a, b, i) {
      forall i | 0 <= i < |p| ensures p[i] == q[i] {
        assert SameAt(a, b, i);
      }
    }
  }

  lemma NotBoth(a: seq<nat>, b: seq<nat>, k: nat, m: nat)
    requires FirstLess(a, b, k)
    ensures !FirstLess(b, a, m)
  {
    if m < k { assert At(a, m) == At(b, m); }
  }

  /** Versions are less, equal or greater, and exactly one of the three. */
  lemma Trichotomy(a: seq<nat>, b: seq<nat>)
    ensures VersionLess(a, b) || VersionEqual(a, b) || VersionLess(b, a)
    ensures !(VersionLess(a, b) && VersionLess(b, a))
    ensures VersionEqual(a, b) ==> !VersionLess(a, b) && !VersionLess(b, a)
  {
    hide VersionLess, VersionEqual, At;
    VersionLessExactly(a, b);
    VersionLessExactly(b, a);
    VersionEqualExactly(a, b);
    forall k: nat, m: nat | FirstLess(a, b, k) ensures !FirstLess(b, a, m) {
      NotBoth(a, b, k, m);
    }
    if VersionEqual(a, b) {
      forall k: nat ensures !FirstLess(a, b, k) && !FirstLess(b, a, k) {
        assert SameAt(a, b, k);
      }
    } else {
      var n: nat :| !SameAt(a, b, n);
      var k := FirstDifference(a, b, n);
      assert FirstLess(a, b, k) || FirstLess(b, a, k);
    }
  }

  lemma FirstDifference(a: seq<nat>, b: seq<nat>, n: nat) returns (k: nat)
    requires At(a, n) != At(b, n)
    ensures At(a, k) != At(b, k) && forall i: nat | i < k :: At(a, i) == At(b, i)
  {
    k := 0;
    while At(a, k) == At(b, k)
      invariant k <= n
      invariant forall i: nat | i < k :: At(a, i) == At(b, i)
      decreases n - k
    {
      k := k + 1;
    }
  }

  /** The order is transitive, through equal versions too. */
  lemma VersionOrderTransitive(a: seq<nat>, b: seq<nat>, c: seq<nat>)
    requires (VersionLess(a, b) || VersionEqual(a, b)) && (VersionLess(b, c) || VersionEqual(b, c))
    ensures VersionLess(a, c) || VersionEqual(a, c)
    ensures VersionEqual(a, c) ==> VersionEqual(a, b) && VersionEqual(b, c)
  {
    hide VersionLess, VersionEqual, At;
    VersionLessExactly(a, b);
    VersionLessExactly(b, c);
    VersionLessExactly(a, c);
    VersionEqualExactly(a, b);
    VersionEqualExactly(b, c);
    VersionEqualExactly(a, c);
    Trichotomy(a, c);
    if VersionLess(a, b) && VersionLess(b, c) {
      var k: nat :| FirstLess(a, b, k);
      var m: nat :| FirstLess(b, c, m);
      assert FirstLess(a, c, if k < m then k else m);
    } else if VersionLess(a, b) {
      var k: nat :| FirstLess(a, b, k);
      forall i: nat ensures At(b, i) == At(c, i) { assert SameAt(b, c, i); }
      assert FirstLess(a, c, k);
    } else if VersionLess(b, c) {
      var k: nat :| FirstLess(b, c, k);
      forall i: nat ensures At(a, i) == At(b, i) { assert SameAt(a, b, i); }
      assert FirstLess(a, c, k);
    } else {
      forall i: nat ensures SameAt(a, c, i) {
        assert SameAt(a, b, i) && SameAt(b, c, i);
      }
    }
  }

  /** Trailing zeros do not matter. */
  lemma TrailingZeros(a: seq<nat>, b: seq<nat>, n: nat)
    ensures VersionEqual(a + seq(n, _ => 0), a)
    ensures VersionLess(a + seq(n, _ => 0), b) == VersionLess(a, b)
    ensures VersionLess(b, a + seq(n, _ => 0)) == VersionLess(b, a)
  {
    hide VersionLess, VersionEqual;
    var long := a + seq(n, _ => 0);
    assert forall i: nat :: At(long, i) == At(a, i);
    VersionEqualExactly(long, a);
    VersionLessExactly(long, b);
    VersionLessExactly(a, b);
    VersionLessExactly(b, long);
    VersionLessExactly(b, a);
    assert forall k: nat :: FirstLess(long, b, k) == FirstLess(a, b, k) && FirstLess(b, long, k) == FirstLess(b, a, k);
  }

  /** The six operators agree with one another, and with the operands exchanged. */
  lemma OperatorsConsistent(a: seq<nat>, b: seq<nat>)
    ensures CompareVersions(Eq, a, b) == CompareVersions(Eq, b, a)
    ensures CompareVersions(Lt, a, b) == CompareVersions(Gt, b, a)
    ensures CompareVersions(LtE, a, b) == CompareVersions(GtE, b, a)
    ensures CompareVersions(NotEq, a, b) == Some(!CompareVersions(Eq, a, b).value)
    ensures CompareVersions(GtE, a, b) == Some(!CompareVersions(Lt, a, b).value)
    ensures CompareVersions(LtE, a, b) == Some(!CompareVersions(Gt, a, b).value)
    ensures CompareVersions(LtE, a, b) == Some(CompareVersions(Lt, a, b).value || CompareVersions(Eq, a, b).value)
    ensures CompareVersions(NotEq, a, b) == Some(CompareVersions(Lt, a, b).value || CompareVersions(Gt, a, b).value)
  {
    hide VersionLess;
    Trichotomy(a, b);
    assert VersionEqual(a, b) == VersionEqual(b, a);
  }

  // -------------------------------------------------------------------------
  // The evaluator
  // -------------------------------------------------------------------------

  function MarkerNames(n: Node): set<string> {
    match n
    case Text(_) => {}
    case Name(id) => {id}
    case Junction(_, values) => NamesOf(values)
    case Compare(left, _, right) => MarkerNames(left) + MarkerNames(right)
    case Unsupported => {}
  }

  function NamesOf(values: seq<Node>): set<string> {
    if values == [] then {} else MarkerNames(values[0]) + NamesOf(values[1..])
  }

  ghost predicate AgreeOn(names: set<string>, e: Environment, f: Environment) {
    forall x | x in names :: (x in e <==> x in f) && (x in e ==> e[x] == f[x])
  }

  lemma AgreeAt(names: set<string>, x: string, e: Environment, f: Environment)
    requires AgreeOn(names, e, f) && x in names
    ensures (x in e <==> x in f) && (x in e ==> e[x] == f[x])
  {
  }

  lemma AgreeFewer(some: set<string>, names: set<string>, e: Environment, f: Environment)
    requires AgreeOn(names, e, f) && some <= names
    ensures AgreeOn(some, e, f)
  {
  }

  /** A marker depends only on the variables it names. */
  lemma {:induction false} VisitReads(n: Node, depth: nat, e: Environment, f: Environment, u: Numerals)
    requires AgreeOn(MarkerNames(n), e, f)
    ensures Visit(n, depth, e, u) == Visit(n, depth, f, u)
    decreases n, 0
  {
    hide CompareSides, AgreeOn, VisitAll, NamesOf;
    match n
    case Name(id) => AgreeAt(MarkerNames(n), id, e, f);
    case Junction(_, values) => VisitAllReads(values, depth + 1, e, f, u);
    case Compare(left, _, right) =>
      AgreeFewer(MarkerNames(left), MarkerNames(n), e, f);
      AgreeFewer(MarkerNames(right), MarkerNames(n), e, f);
      VisitReads(left, depth + 1, e, f, u);
      VisitReads(right, depth + 1, e, f, u);
    case _ =>
  }

  lemma {:induction false} VisitAllReads(values: seq<Node>, depth: nat, e: Environment, f: Environment, u: Numerals)
    requires AgreeOn(NamesOf(values), e, f)
    ensures VisitAll(values, depth, e, u) == VisitAll(values, depth, f, u)
    decreases values
  {
    if values != [] {
      VisitReads(values[0], depth, e, f, u);
      VisitAllReads(values[1..], depth, e, f, u);
    }
  }

  /** A marker that does not name the extra applies to every extra or to none, and fails for all or for none. */
  lemma ExtraIrrelevant(m: Marker, platform: Platform, a: string, b: string, u: Numerals)
    requires m.Parsed? ==> "extra" !in MarkerNames(m.tree)
    ensures MarkerApplies(m, EnvironmentOf(platform, a), u) == MarkerApplies(m, EnvironmentOf(platform, b), u)
  {
    if m.Parsed? {
      hide Visit;
      VisitReads(m.tree, 0, EnvironmentOf(platform, a), EnvironmentOf(platform, b), u);
    }
  }
}
