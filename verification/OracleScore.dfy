/**
 * The scorer of a test log and the checks it makes of itself
 * (tools/g3_oracle_controls.py, lines 81 to 189). A line is given as what decoding
 * makes of it: unreadable, irrelevant, or the end of one test in one package.
 */
module OracleScore {
  import opened Prelude

  datatype Action = Pass | Fail | Skip

  datatype Line = Malformed | Quiet | Terminal(name: string, package: string, action: Action)

  datatype Kind = Gold | Base

  datatype Expected = Expected(f2p: seq<string>, p2p: seq<string>)

  function Desired(kind: Kind): Action {
    if kind == Gold then Pass else Fail
  }

  function ExitOf(kind: Kind): int {
    if kind == Gold then 0 else 1
  }

  // -------------------------------------------------------------------------
  // Acceptance, said of the bag of lines
  // -------------------------------------------------------------------------

  ghost predicate Ends(lines: multiset<Line>, name: string) {
    exists l :: l in lines && l.Terminal? && l.name == name
  }

  ghost predicate AllEnd(lines: multiset<Line>, name: string, action: Action) {
    Ends(lines, name) && forall l | l in lines && l.Terminal? && l.name == name :: l.action == action
  }

  /** No test ended twice alike in one package, or differently anywhere. */
  ghost predicate Coherent(lines: multiset<Line>) {
    && (forall l | l in lines && l.Terminal? :: lines[l] == 1)
    && OneEach(lines)
  }

  ghost predicate OneEach(lines: multiset<Line>) {
    forall l, m | l in lines && m in lines && l.Terminal? && m.Terminal? && l.name == m.name :: l.action == m.action
  }

  ghost predicate Acceptable(lines: multiset<Line>, exitCode: int, expected: Expected, kind: Kind) {
    && Malformed !in lines
    && Coherent(lines)
    && exitCode == ExitOf(kind)
    && (forall name | name in expected.f2p :: AllEnd(lines, name, Desired(kind)))
    && (forall name | name in expected.p2p :: AllEnd(lines, name, Pass))
    && (forall l | l in lines && l.Terminal? && l.action == Fail :: l.name in expected.f2p)
  }

  // -------------------------------------------------------------------------
  // The scorer
  // -------------------------------------------------------------------------

  type Ended = map<string, seq<(string, Action)>>

  /** The terminal events by name, each name's in log order. */
  function Grouped(lines: seq<Line>): Ended {
    if lines == [] then map[]
    else
      var before, l := Grouped(lines[..|lines| - 1]), lines[|lines| - 1];
      if !l.Terminal? then before
      else before[l.name := (if l.name in before then before[l.name] else []) + [(l.package, l.action)]]
  }

  ghost predicate Groups(ended: Ended, lines: seq<Line>) {
    && (forall n, v: (string, Action) | n in ended && v in ended[n] :: Terminal(n, v.0, v.1) in lines)
    && (forall l | l in lines && l.Terminal? :: l.name in ended && (l.package, l.action) in ended[l.name])
    && (forall n | n in ended :: ended[n] != [])
  }

  lemma {:induction false} GroupedGroups(lines: seq<Line>)
    ensures Groups(Grouped(lines), lines)
  {
    if lines != [] {
      var init, l := lines[..|lines| - 1], lines[|lines| - 1];
      assert lines == init + [l];
      GroupedGroups(init);
    }
  }

  /** A name's events repeat exactly as its lines do. */
  lemma {:induction false} GroupedCounts(lines: seq<Line>, name: string, v: (string, Action))
    ensures (if name in Grouped(lines) then multiset(Grouped(lines)[name])[v] else 0)
            == multiset(lines)[Terminal(name, v.0, v.1)]
  {
    if lines != [] {
      var init, l := lines[..|lines| - 1], lines[|lines| - 1];
      GroupedCounts(init, name, v);
      assert lines == init + [l];
      if l.Terminal? && l.name == name {
        assert Grouped(lines)[name]
               == (if name in Grouped(init) then Grouped(init)[name] else []) + [(l.package, l.action)];
      }
    }
  }

  predicate NoRepeats(values: seq<(string, Action)>) {
    forall v | v in values :: multiset(values)[v] == 1
  }

  predicate OneAction(values: seq<(string, Action)>) {
    forall v, w | v in values && w in values :: v.1 == w.1
  }

  predicate AllAre(values: seq<(string, Action)>, action: Action) {
    forall v | v in values :: v.1 == action
  }

  datatype Report = Report(accepted: bool, malformed: nat, p2pPassed: nat)

  function Unreadable(lines: seq<Line>): nat {
    multiset(lines)[Malformed]
  }

  /** How many of the listed names passed; a name listed twice counts twice. */
  function Passed(ended: Ended, names: seq<string>): (n: nat)
    ensures n <= |names|
  {
    if names == [] then 0
    else
      var last := names[|names| - 1];
      Passed(ended, names[..|names| - 1]) + if last in ended && AllAre(ended[last], Pass) then 1 else 0
  }

  lemma {:induction false} PassedAll(ended: Ended, names: seq<string>)
    ensures Passed(ended, names) == |names| <==> forall n | n in names :: n in ended && AllAre(ended[n], Pass)
  {
    hide AllAre;
    if names != [] {
      var init, last := names[..|names| - 1], names[|names| - 1];
      assert names == init + [last];
      PassedAll(ended, init);
    }
  }

  lemma EndsGrouped(lines: seq<Line>, name: string, action: Action)
    ensures AllEnd(multiset(lines), name, action)
            <==> name in Grouped(lines) && AllAre(Grouped(lines)[name], action)
  {
    GroupedGroups(lines);
    var ended := Grouped(lines);
    if name in ended && AllAre(ended[name], action) {
      var v := ended[name][0];
      assert Terminal(name, v.0, v.1) in lines;
    }
    if AllEnd(multiset(lines), name, action) {
      forall v: (string, Action) | v in ended[name] ensures v.1 == action {
        assert Terminal(name, v.0, v.1) in lines;
      }
    }
  }

  /** The two views of a line: in the log, and in the group of its name. */
  lemma Member(lines: seq<Line>, name: string, v: (string, Action))
    ensures Terminal(name, v.0, v.1) in lines <==> name in Grouped(lines) && v in Grouped(lines)[name]
    ensures name in Grouped(lines) ==> multiset(Grouped(lines)[name])[v] == multiset(lines)[Terminal(name, v.0, v.1)]
  {
    GroupedGroups(lines);
    GroupedCounts(lines, name, v);
  }

  lemma RepeatsGrouped(lines: seq<Line>)
    ensures (forall n | n in Grouped(lines) :: NoRepeats(Grouped(lines)[n]))
            <==> (forall l | l in multiset(lines) && l.Terminal? :: multiset(lines)[l] == 1)
  {
    hide Grouped;
    var ended := Grouped(lines);
    if forall n | n in ended :: NoRepeats(ended[n]) {
      forall l | l in lines && l.Terminal? ensures multiset(lines)[l] == 1 {
        Member(lines, l.name, (l.package, l.action));
        assert NoRepeats(ended[l.name]);
      }
    }
    if forall l | l in multiset(lines) && l.Terminal? :: multiset(lines)[l] == 1 {
      forall n, v: (string, Action) | n in ended && v in ended[n] ensures multiset(ended[n])[v] == 1 {
        Member(lines, n, v);
      }
    }
  }

  lemma ActionsGrouped(lines: seq<Line>)
    ensures (forall n | n in Grouped(lines) :: OneAction(Grouped(lines)[n])) <==> OneEach(multiset(lines))
  {
    hide Grouped;
    var ended := Grouped(lines);
    if forall n | n in ended :: OneAction(ended[n]) {
      forall l, m | l in lines && m in lines && l.Terminal? && m.Terminal? && l.name == m.name
        ensures l.action == m.action
      {
        Member(lines, l.name, (l.package, l.action));
        Member(lines, m.name, (m.package, m.action));
        assert OneAction(ended[l.name]);
      }
    }
    if OneEach(multiset(lines)) {
      forall n, v: (string, Action), w: (string, Action) | n in ended && v in ended[n] && w in ended[n]
        ensures v.1 == w.1 {
        Member(lines, n, v);
        Member(lines, n, w);
        assert Terminal(n, v.0, v.1) in multiset(lines) && Terminal(n, w.0, w.1) in multiset(lines);
      }
    }
  }

  lemma FailsGrouped(lines: seq<Line>, expected: Expected)
    ensures (forall n | n in Grouped(lines) && (exists v: (string, Action) :: v in Grouped(lines)[n] && v.1 == Fail) ::
               n in expected.f2p)
            <==> (forall l | l in multiset(lines) && l.Terminal? && l.action == Fail :: l.name in expected.f2p)
  {
    var ended := Grouped(lines);
    GroupedGroups(lines);
    if forall n | n in ended && (exists v: (string, Action) :: v in ended[n] && v.1 == Fail) :: n in expected.f2p {
      forall l | l in lines && l.Terminal? && l.action == Fail ensures l.name in expected.f2p {
        assert (l.package, l.action) in ended[l.name];
      }
    }
    if forall l | l in multiset(lines) && l.Terminal? && l.action == Fail :: l.name in expected.f2p {
      forall n, v: (string, Action) | n in ended && v in ended[n] && v.1 == Fail ensures n in expected.f2p {
        assert Terminal(n, v.0, v.1) in lines;
      }
    }
  }

  lemma GroupedSnoc(lines: seq<Line>, l: Line)
    ensures var before := Grouped(lines);
            Grouped(lines + [l])
            == if !l.Terminal? then before
               else before[l.name := (if l.name in before then before[l.name] else []) + [(l.package, l.action)]]
    ensures Unreadable(lines + [l]) == Unreadable(lines) + if l.Malformed? then 1 else 0
  {
    assert (lines + [l])[..|lines|] == lines;
  }

  /** The loop over the log (lines 82 to 101). */
  method Collect(lines: seq<Line>) returns (ended: Ended, malformed: nat)
    ensures ended == Grouped(lines) && malformed == Unreadable(lines)
  {
    hide Grouped, Unreadable;
    ended, malformed := map[], 0;
    NothingGrouped();
    for i := 0 to |lines|
      invariant ended == Grouped(lines[..i]) && malformed == Unreadable(lines[..i])
    {
      assert lines[..i + 1] == lines[..i] + [lines[i]];
      GroupedSnoc(lines[..i], lines[i]);
      match lines[i] {
        case Malformed =>
          malformed := malformed + 1;
        case Quiet =>
        case Terminal(name, package, action) =>
          ended := ended[name := (if name in ended then ended[name] else []) + [(package, action)]];
      }
    }
    assert lines[..|lines|] == lines;
  }

  lemma NothingGrouped()
    ensures Grouped([]) == map[] && Unreadable([]) == 0
  {
  }

  /** score. It accepts exactly the acceptable bags of lines. */
  method Score(lines: seq<Line>, exitCode: int, expected: Expected, kind: Kind) returns (r: Report)
    ensures r.accepted <==> Acceptable(multiset(lines), exitCode, expected, kind)
    ensures r.malformed == Unreadable(lines) && r.p2pPassed == Passed(Grouped(lines), expected.p2p)
  {
    hide AllAre, NoRepeats, OneAction, AllEnd, Grouped, Passed;
    var ended, malformed := Collect(lines);
    var p2pPassed := CountPassed(ended, expected.p2p);
    PassedAll(ended, expected.p2p);
    RepeatsGrouped(lines);
    ActionsGrouped(lines);
    FailsGrouped(lines, expected);
    forall name
      ensures AllEnd(multiset(lines), name, Desired(kind)) <==> name in ended && AllAre(ended[name], Desired(kind)) {
      EndsGrouped(lines, name, Desired(kind));
    }
    forall name ensures AllEnd(multiset(lines), name, Pass) <==> name in ended && AllAre(ended[name], Pass) {
      EndsGrouped(lines, name, Pass);
    }
    var accepted :=
      && malformed == 0
      && (forall n | n in ended :: NoRepeats(ended[n]))
      && (forall n | n in ended :: OneAction(ended[n]))
      && exitCode == ExitOf(kind)
      && (forall n | n in expected.f2p :: n in ended && AllAre(ended[n], Desired(kind)))
      && p2pPassed == |expected.p2p|
      && (forall n | n in ended && (exists v: (string, Action) | v in ended[n] :: v.1 == Fail) :: n in expected.f2p);
    r := Report(accepted, malformed, p2pPassed);
  }

  method CountPassed(ended: Ended, names: seq<string>) returns (n: nat)
    ensures n == Passed(ended, names)
  {
    n := 0;
    for i := 0 to |names|
      invariant n == Passed(ended, names[..i])
    {
      assert names[..i + 1][..i] == names[..i];
      if names[i] in ended && AllAre(ended[names[i]], Pass) {
        n := n + 1;
      }
    }
    assert names[..|names|] == names;
  }

  /** The reported counts do not depend on the order of the lines either. */
  lemma {:induction false} OrderFree(lines: seq<Line>, other: seq<Line>, names: seq<string>)
    requires multiset(lines) == multiset(other)
    ensures Unreadable(lines) == Unreadable(other)
    ensures Passed(Grouped(lines), names) == Passed(Grouped(other), names)
    decreases |names|
  {
    hide AllAre, Grouped, AllEnd;
    if names != [] {
      OrderFree(lines, other, names[..|names| - 1]);
      EndsGrouped(lines, names[|names| - 1], Pass);
      EndsGrouped(other, names[|names| - 1], Pass);
    }
  }

  // -------------------------------------------------------------------------
  // The self-checks (lines 158 to 189)
  // -------------------------------------------------------------------------

  predicate Wanted(l: Line, chosen: string) {
    l.Terminal? && l.name == chosen && l.action == Pass
  }

  /** Whether each probe was rejected; None when the log has no pass to remove. */
  datatype Probes = Probes(missing: bool, conflict: bool, malformed: bool)

  const PROBE_PACKAGE := "audit.synthetic"

  /** The loop that drops the first pass of the chosen test. */
  method DropFirst(lines: seq<Line>, chosen: string) returns (dropped: seq<Line>, at: Option<nat>)
    ensures at.None? ==> forall i | 0 <= i < |lines| :: !Wanted(lines[i], chosen)
    ensures at.Some? ==> at.value < |lines| && Wanted(lines[at.value], chosen)
                         && dropped == lines[..at.value] + lines[at.value + 1..]
  {
    dropped, at := [], None;
    for i := 0 to |lines|
      invariant at.None? ==> dropped == lines[..i] && forall k | 0 <= k < i :: !Wanted(lines[k], chosen)
      invariant at.Some? ==> at.value < i && Wanted(lines[at.value], chosen)
                             && dropped == lines[..at.value] + lines[at.value + 1..i]
    {
      if at.None? && Wanted(lines[i], chosen) {
        at := Some(i);
      } else {
        dropped := dropped + [lines[i]];
      }
    }
  }

  /** A newline at the end of the log makes the joined probe one unreadable line longer. */
  method NegativeChecks(lines: seq<Line>, blank: bool, expected: Expected) returns (r: Option<Probes>)
    requires expected.f2p != []
    ensures r.None? <==> forall i | 0 <= i < |lines| :: !Wanted(lines[i], expected.f2p[0])
    ensures Acceptable(multiset(lines), 0, expected, Gold) ==>
              && r.Some? && r.value.conflict && r.value.malformed
              && (r.value.missing <==> OnlyOne(multiset(lines), expected.f2p[0]))
  {
    hide Acceptable, OnlyOne;
    var chosen := expected.f2p[0];
    var dropped, at := DropFirst(lines, chosen);
    if at.None? {
      if Acceptable(multiset(lines), 0, expected, Gold) { ChosenPasses(lines, expected); }
      return None;
    }
    var joined := lines + if blank then [Malformed] else [];
    var missing := Score(dropped, 0, expected, Gold);
    var conflict := Score(joined + [Terminal(chosen, PROBE_PACKAGE, Fail)], 0, expected, Gold);
    var malformed := Score(joined + [Malformed], 0, expected, Gold);
    ProbesRejected(lines, joined, expected, at.value);
    if Acceptable(multiset(lines), 0, expected, Gold) { DroppedExactly(lines, dropped, expected, at.value); }
    r := Some(Probes(!missing.accepted, !conflict.accepted, !malformed.accepted));
  }

  /** The chosen test ended in one package only. */
  ghost predicate OnlyOne(lines: multiset<Line>, name: string) {
    forall l, m | l in lines && m in lines && l.Terminal? && m.Terminal? && l.name == name && m.name == name :: l == m
  }

  lemma ChosenPasses(lines: seq<Line>, expected: Expected)
    requires expected.f2p != [] && Acceptable(multiset(lines), 0, expected, Gold)
    ensures exists i :: 0 <= i < |lines| && Wanted(lines[i], expected.f2p[0])
  {
    var chosen := expected.f2p[0];
    assert chosen in expected.f2p && AllEnd(multiset(lines), chosen, Desired(Gold));
    var l :| l in multiset(lines) && l.Terminal? && l.name == chosen;
    var i :| 0 <= i < |lines| && lines[i] == l;
  }

  /** The conflict and the malformed probe are rejected whatever the log was. */
  lemma ProbesRejected(lines: seq<Line>, joined: seq<Line>, expected: Expected, at: nat)
    requires expected.f2p != [] && at < |lines| && Wanted(lines[at], expected.f2p[0]) && lines <= joined
    ensures !Acceptable(multiset(joined + [Terminal(expected.f2p[0], PROBE_PACKAGE, Fail)]), 0, expected, Gold)
    ensures !Acceptable(multiset(joined + [Malformed]), 0, expected, Gold)
  {
    var probe := Terminal(expected.f2p[0], PROBE_PACKAGE, Fail);
    var all := joined + [probe];
    assert all[at] == lines[at] && all[|joined|] == probe;
    assert lines[at] in multiset(all) && probe in multiset(all);
    assert (joined + [Malformed])[|joined|] == Malformed;
  }

  /** Without one pass of the chosen test the log is still acceptable exactly when another package ended it too. */
  lemma DroppedExactly(lines: seq<Line>, dropped: seq<Line>, expected: Expected, at: nat)
    requires expected.f2p != [] && at < |lines| && Wanted(lines[at], expected.f2p[0])
    requires dropped == lines[..at] + lines[at + 1..]
    requires Acceptable(multiset(lines), 0, expected, Gold)
    ensures Acceptable(multiset(dropped), 0, expected, Gold) <==> !OnlyOne(multiset(lines), expected.f2p[0])
  {
    hide Acceptable, OnlyOne, Coherent;
    var all, less, gone := multiset(lines), multiset(dropped), lines[at];
    assert lines == lines[..at] + [gone] + lines[at + 1..];
    assert less == all - multiset{gone};
    if OnlyOne(all, gone.name) {
      LastOneMissing(all, less, gone, expected);
    } else {
      OneOfMany(all, less, gone, expected);
    }
  }

  lemma LastOneMissing(all: multiset<Line>, less: multiset<Line>, gone: Line, expected: Expected)
    requires gone in all && gone.Terminal? && gone.name in expected.f2p && less == all - multiset{gone}
    requires Acceptable(all, 0, expected, Gold) && OnlyOne(all, gone.name)
    ensures !Acceptable(less, 0, expected, Gold)
  {
    assert all[gone] == 1;
    assert !Ends(less, gone.name);
    assert !AllEnd(less, gone.name, Desired(Gold));
  }

  lemma StillEnds(all: multiset<Line>, less: multiset<Line>, gone: Line, other: Line, name: string, action: Action)
    requires gone in all && less == all - multiset{gone} && AllEnd(all, name, action)
    requires other in all && other != gone && other.Terminal? && gone.Terminal? && other.name == gone.name
    ensures AllEnd(less, name, action)
  {
    if name == gone.name {
      assert other in less;
    } else {
      var l :| l in all && l.Terminal? && l.name == name;
      assert l in less;
    }
  }

  lemma OneOfMany(all: multiset<Line>, less: multiset<Line>, gone: Line, expected: Expected)
    requires gone in all && gone.Terminal? && less == all - multiset{gone}
    requires Acceptable(all, 0, expected, Gold) && !OnlyOne(all, gone.name)
    ensures Acceptable(less, 0, expected, Gold)
  {
    hide AllEnd;
    var l, m :| l in all && m in all && l.Terminal? && m.Terminal? && l.name == gone.name && m.name == gone.name
               && l != m;
    var other := if l != gone then l else m;
    forall name | name in expected.f2p ensures AllEnd(less, name, Desired(Gold)) {
      StillEnds(all, less, gone, other, name, Desired(Gold));
    }
    forall name | name in expected.p2p ensures AllEnd(less, name, Pass) {
      StillEnds(all, less, gone, other, name, Pass);
    }
    assert forall x | x in less :: x in all && less[x] <= all[x];
  }

  // -------------------------------------------------------------------------
  // Logs that are accepted
  // -------------------------------------------------------------------------

  /**
   * A gold control whose required test passes and a base control whose required
   * test fails are accepted, with exit codes 0 and 1, and neither as the other; a
   * skipped test is neither.
   */
  lemma ControlsAccepted(name: string, other: string, package: string)
    requires name != other
    ensures var expected := Expected([name], [other]);
            var passed, failed := Terminal(name, package, Pass), Terminal(name, package, Fail);
            var kept, skipped := Terminal(other, package, Pass), Terminal(name, package, Skip);
            && Acceptable(multiset{passed, kept, Quiet}, 0, expected, Gold)
            && Acceptable(multiset{failed, kept, Quiet}, 1, expected, Base)
            && !Acceptable(multiset{passed, kept}, 1, expected, Base)
            && !Acceptable(multiset{failed, kept}, 0, expected, Gold)
            && !Acceptable(multiset{skipped, kept}, 0, expected, Gold)
            && !Acceptable(multiset{skipped, kept}, 1, expected, Base)
            && !Acceptable(multiset{failed, kept, Quiet}, 0, expected, Base)
            && !Acceptable(multiset{passed, kept, Quiet}, 1, expected, Gold)
  {
    hide Acceptable;
    var expected := Expected([name], [other]);
    var kept := Terminal(other, package, Pass);
    ControlEnds(Terminal(name, package, Pass), kept, expected);
    ControlEnds(Terminal(name, package, Fail), kept, expected);
    ControlEnds(Terminal(name, package, Skip), kept, expected);
  }

  lemma ControlEnds(l: Line, kept: Line, expected: Expected)
    requires l.Terminal? && kept.Terminal? && kept.action == Pass && l.name != kept.name
    requires expected == Expected([l.name], [kept.name])
    ensures forall lines: multiset<Line>, exitCode: int, kind: Kind |
              lines == multiset{l, kept} || lines == multiset{l, kept, Quiet} ::
              Acceptable(lines, exitCode, expected, kind)
              <==> exitCode == ExitOf(kind) && l.action == Desired(kind)
  {
    forall lines: multiset<Line>, exitCode: int, kind: Kind |
      lines == multiset{l, kept} || lines == multiset{l, kept, Quiet}
      ensures Acceptable(lines, exitCode, expected, kind) <==> exitCode == ExitOf(kind) && l.action == Desired(kind)
    {
      assert forall x | x in lines && x.Terminal? :: x == l || x == kept;
      assert lines[l] == 1 && lines[kept] == 1 && l in lines && kept in lines;
      assert l.name in expected.f2p && kept.name in expected.p2p;
      assert AllEnd(lines, kept.name, Pass);
      assert AllEnd(lines, l.name, Desired(kind)) <==> l.action == Desired(kind);
    }
  }

  /**
   * To an accepted gold control a line that says nothing or the end of another
   * test may be added exactly if that test did not fail; no line may be
   * unreadable, and a required test may end again exactly in another package.
   */
  lemma OneMoreLine(name: string, other: string, package: string, l: Line)
    requires name != other
    ensures var lines := multiset{Terminal(name, package, Pass), Terminal(other, package, Pass)};
            Acceptable(lines + multiset{l}, 0, Expected([name], [other]), Gold) <==>
              || l == Quiet
              || (l.Terminal? && l.name != name && l.name != other && l.action != Fail)
              || (l.Terminal? && (l.name == name || l.name == other) && l.action == Pass && l.package != package)
  {
    var a, b := Terminal(name, package, Pass), Terminal(other, package, Pass);
    var lines := multiset{a, b} + multiset{l};
    assert a in lines && b in lines && l in lines;
    assert forall x | x in lines :: x == a || x == b || x == l;
    assert lines[a] == 1 + (if l == a then 1 else 0) && lines[b] == 1 + if l == b then 1 else 0;
    assert l != a && l != b ==> lines[l] == 1;
    assert name in Expected([name], [other]).f2p && other in Expected([name], [other]).p2p;
  }
}
