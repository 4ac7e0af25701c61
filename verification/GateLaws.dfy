/**
 * The judgement of one fault, and a protocol and evidence that are reviewable
 * (tools/g6_06_operating_gate.py, lines 187 to 213 and 456 to 506).
 */
module GateLaws {
  import opened Prelude
  import opened OperatingGate

  // -------------------------------------------------------------------------
  // One fault
  // -------------------------------------------------------------------------

  /** Faults in which nothing may be assigned: four whole cases, and the last of two others. */
  predicate Unassigned(f: Fault) {
    f in {MissingGo, ChangedManifest, ChangedBuild, UnsignedRelease, OutsideOwner, DuplicateTask, FreshSession,
          WitnessRollback, LocalRollback, AuditRollback, CombinedRollback,
          ChangedRubric, ChangedPolicy, EarlyAssessment, UnregisteredClaim, RecoveryReentry, ReplacementDraw}
  }

  /** What the evidence of every fault of a reviewable pair shows, beside its counts. */
  lemma ObservedExactly(p: Protocol, e: Evidence, f: Fault)
    requires Reviewable(p, e)
    ensures f in e.observed
    ensures var x := e.observed[f];
            && x.passed && x.hasSource
            && (x.status == Enters <==> f in {LastSlot, ConcurrentClaim, StopInflight, RouteAfterFinalRead,
                                             StopAfterFinalRead})
            && p.frozenAt <= x.at <= e.assembledAt
            && x.producer == p.operator && x.checker == p.checker && x.producer != x.checker
            && x.entries <= x.intents <= x.claims <= x.assignments <= 1
            && (f == KilledAssignment ==> x.assignments == 1) && (Unassigned(f) ==> x.assignments == 0)
            && (f == AmbiguousClaim || f == StopInflight || f == RouteAfterClaim || f == RouteAfterFinalRead
                || f == StopAfterClaim || f == StopAfterFinalRead ==>
                  x.claims == 1 && x.exposure >= p.requestMaximum)
            && (f == StopInflight || f == StopBeforeClaim || f == StopAfterClaim || f == StopAfterFinalRead ==>
                  x.after > x.before)
    ensures exists o | o in p.oracles :: o.fault == f && o.state == e.observed[f].state
  {
    hide Reviewable;
    ObservedWithin(p, e, f);
    NoneInvalid(p, e, f);
    Indexed(p, f);
    assert p.oracles[Place(f)] in p.oracles;
  }

  lemma Indexed(p: Protocol, f: Fault)
    ensures |p.oracles| == |FAULTS| ==> Place(f) < |p.oracles|
  {
    Placed(f);
  }

  lemma NoneInvalid(p: Protocol, e: Evidence, f: Fault)
    requires Reviewable(p, e)
    ensures Place(f) < |p.oracles| && f in e.observed && ObservationValid(p, e, e.observed[f])
  {
    ObservedWithin(p, e, f);
    Placed(f);
    NoReasonAt(p, e, |p.oracles|, Place(f));
  }

  // -------------------------------------------------------------------------
  // A reviewable pair
  // -------------------------------------------------------------------------

  predicate Entering(f: Fault) {
    f in {LastSlot, ConcurrentClaim, StopInflight, RouteAfterFinalRead, StopAfterFinalRead}
  }

  predicate Exposed(f: Fault) {
    f in {AmbiguousClaim, StopInflight, RouteAfterClaim, RouteAfterFinalRead, StopAfterClaim, StopAfterFinalRead}
  }

  function OracleFor(f: Fault, maximum: nat): Oracle {
    var entries := if Entering(f) then 1 else 0;
    var claims := if Entering(f) || Exposed(f) then 1 else 0;
    Oracle(f, if Entering(f) then Enters else Deny, "state", if Unassigned(f) then 0 else 1, claims, claims, entries,
           if Exposed(f) then maximum else 0)
  }

  function ProtocolFor(maximum: nat, operator: string, checker: string): (p: Protocol)
    ensures |p.oracles| == |FAULTS|
    ensures forall i | 0 <= i < |FAULTS| :: p.oracles[i] == OracleFor(FAULTS[i], maximum)
  {
    Protocol(seq(|FAULTS|, i requires 0 <= i < |FAULTS| => OracleFor(FAULTS[i], maximum)),
             maximum, operator, checker, 0)
  }

  function ObservationFor(f: Fault, maximum: nat, operator: string, checker: string): Observation {
    var o := OracleFor(f, maximum);
    Observation(true, o.expected, o.state, true, operator, checker, 1,
                o.assignments, o.claims, o.intents, o.entries, o.exposure, 1, 2)
  }

  function EvidenceFor(maximum: nat, operator: string, checker: string): Evidence {
    Evidence(map f | f in FAULTS :: ObservationFor(f, maximum, operator, checker), 2)
  }

  lemma OracleFrozen(f: Fault, maximum: nat)
    ensures Coherent(OracleFor(f, maximum)) && OracleKept(OracleFor(f, maximum), maximum)
  {
  }

  lemma JudgedWell(f: Fault, maximum: nat, operator: string, checker: string)
    requires operator != checker
    ensures var o, x := OracleFor(f, maximum), ObservationFor(f, maximum, operator, checker);
            o.fault == f && OracleMet(o, x) && StateHolds(o, x)
  {
  }

  lemma Found(f: Fault, maximum: nat, operator: string, checker: string)
    requires f in FAULTS
    ensures f in EvidenceFor(maximum, operator, checker).observed
    ensures EvidenceFor(maximum, operator, checker).observed[f] == ObservationFor(f, maximum, operator, checker)
  {
    hide FAULTS, ObservationFor;
  }

  lemma NoReasons(f: Fault, maximum: nat, operator: string, checker: string)
    requires f in FAULTS && operator != checker
    ensures ReasonsOf(ProtocolFor(maximum, operator, checker), EvidenceFor(maximum, operator, checker),
                      OracleFor(f, maximum)) == {}
  {
    hide ProtocolFor, EvidenceFor, FAULTS, OracleFor, ObservationFor, OracleMet, StateHolds;
    Found(f, maximum, operator, checker);
    JudgedWell(f, maximum, operator, checker);
    InWindow(f, maximum, operator, checker);
  }

  lemma InWindow(f: Fault, maximum: nat, operator: string, checker: string)
    requires operator != checker
    ensures ObservationValid(ProtocolFor(maximum, operator, checker), EvidenceFor(maximum, operator, checker),
                             ObservationFor(f, maximum, operator, checker))
  {
    hide ProtocolFor, FAULTS, OracleFor;
    ProtocolParts(maximum, operator, checker);
  }

  lemma ProtocolParts(maximum: nat, operator: string, checker: string)
    ensures var p := ProtocolFor(maximum, operator, checker);
            p.operator == operator && p.checker == checker && p.frozenAt == 0 && p.requestMaximum == maximum
  {
  }

  lemma {:induction false} NoneAtAll(maximum: nat, operator: string, checker: string, n: nat)
    requires operator != checker && n <= |FAULTS|
    ensures n <= |ProtocolFor(maximum, operator, checker).oracles|
    ensures AllReasons(ProtocolFor(maximum, operator, checker), EvidenceFor(maximum, operator, checker), n) == {}
    decreases n
  {
    hide ProtocolFor, EvidenceFor, ReasonsOf;
    if n > 0 {
      NoneAtAll(maximum, operator, checker, n - 1);
      assert FAULTS[n - 1] in FAULTS;
      NoReasons(FAULTS[n - 1], maximum, operator, checker);
    }
  }

  /** For every request maximum and two different roles some protocol and evidence are reviewable. */
  lemma ReviewablePair(maximum: nat, operator: string, checker: string)
    requires maximum > 0 && operator != checker
    ensures Reviewable(ProtocolFor(maximum, operator, checker), EvidenceFor(maximum, operator, checker))
  {
    hide OracleFor, ObservationFor, FAULTS;
    var p, e := ProtocolFor(maximum, operator, checker), EvidenceFor(maximum, operator, checker);
    ProtocolParts(maximum, operator, checker);
    forall i | 0 <= i < |FAULTS|
      ensures p.oracles[i].fault == FAULTS[i] && Coherent(p.oracles[i]) && OracleKept(p.oracles[i], maximum)
    {
      OracleFrozen(FAULTS[i], maximum);
      OracleNamed(FAULTS[i], maximum);
    }
    NoneAtAll(maximum, operator, checker, |FAULTS|);
    forall f ensures f in Expected(p) <==> f in FAULTS {
      if f in FAULTS {
        var i :| 0 <= i < |FAULTS| && FAULTS[i] == f;
        assert p.oracles[i] in p.oracles;
      }
    }
  }

  lemma OracleNamed(f: Fault, maximum: nat)
    ensures OracleFor(f, maximum).fault == f
  {
  }
}
