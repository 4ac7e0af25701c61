/**
 * The fault matrix of the operating gate (tools/g6_06_operating_gate.py): what a
 * frozen protocol may say of each fault, how the evidence is judged against it,
 * and what every reviewable pair conserves.
 */
module OperatingGate {
  import opened Prelude

  datatype Fault =
    | MissingGo | ChangedManifest | ChangedBuild | UnsignedRelease
    | OutsideOwner | DuplicateTask | FreshSession
    | LastSlot | ConcurrentClaim | KilledAssignment | AmbiguousClaim
    | AuditOutage | AlertLoss | StaleClock | StopInflight
    | RouteBeforeClaim | RouteAfterClaim | RouteAfterFinalRead | StaleFallback
    | StopBeforeClaim | StopAfterClaim | StopAfterFinalRead | RecoveryReentry
    | EarlyClose | MissingFollowup | CancelledTask | ReplacementDraw
    | WitnessRollback | LocalRollback | AuditRollback | CombinedRollback
    | ChangedRubric | ChangedPolicy | EarlyAssessment | UnregisteredClaim

  /** The matrix, case by case (lines 22 to 51). */
  const FIRST: seq<Fault> :=
    [MissingGo, ChangedManifest, ChangedBuild, UnsignedRelease,
     OutsideOwner, DuplicateTask, FreshSession,
     LastSlot, ConcurrentClaim, KilledAssignment, AmbiguousClaim,
     AuditOutage, AlertLoss, StaleClock, StopInflight,
     RouteBeforeClaim, RouteAfterClaim, RouteAfterFinalRead, StaleFallback]

  const SECOND: seq<Fault> :=
    [StopBeforeClaim, StopAfterClaim, StopAfterFinalRead, RecoveryReentry,
     EarlyClose, MissingFollowup, CancelledTask, ReplacementDraw,
     WitnessRollback, LocalRollback, AuditRollback, CombinedRollback,
     ChangedRubric, ChangedPolicy, EarlyAssessment, UnregisteredClaim]

  const FAULTS: seq<Fault> := FIRST + SECOND

  predicate OneEntry(f: Fault) {
    f.LastSlot? || f.ConcurrentClaim? || f.StopInflight? || f.RouteAfterFinalRead? || f.StopAfterFinalRead?
  }

  predicate FullExposure(f: Fault) {
    || f.AmbiguousClaim? || f.StopInflight? || f.RouteAfterClaim? || f.RouteAfterFinalRead?
    || f.StopAfterClaim? || f.StopAfterFinalRead?
  }

  predicate ClaimAllowed(f: Fault) {
    OneEntry(f) || FullExposure(f)
  }

  predicate NoAssignment(f: Fault) {
    || f.MissingGo? || f.ChangedManifest? || f.ChangedBuild? || f.UnsignedRelease?
    || f.OutsideOwner? || f.DuplicateTask? || f.FreshSession?
    || f.WitnessRollback? || f.LocalRollback? || f.AuditRollback? || f.CombinedRollback?
    || f.ChangedRubric? || f.ChangedPolicy? || f.EarlyAssessment? || f.UnregisteredClaim?
    || f.RecoveryReentry? || f.ReplacementDraw?
  }

  predicate StopFault(f: Fault) {
    f.StopInflight? || f.StopBeforeClaim? || f.StopAfterClaim? || f.StopAfterFinalRead?
  }

  datatype Status = Deny | Enters

  datatype Oracle = Oracle(
    fault: Fault, expected: Status, state: string,
    assignments: nat, claims: nat, intents: nat, entries: nat, exposure: nat)

  datatype Protocol = Protocol(
    oracles: seq<Oracle>, requestMaximum: nat, operator: string, checker: string, frozenAt: int)

  datatype Observation = Observation(
    passed: bool, status: Status, state: string, hasSource: bool, producer: string, checker: string, at: int,
    assignments: nat, claims: nat, intents: nat, entries: nat, exposure: nat, before: nat, after: nat)

  /** Observations are unique by fault. */
  datatype Evidence = Evidence(observed: map<Fault, Observation>, assembledAt: int)

  /** coherent_bounds (lines 145 to 155); each bound is at most one. */
  predicate Coherent(o: Oracle) {
    && o.entries <= o.intents <= o.claims <= o.assignments <= 1
    && o.entries == if o.expected == Enters then 1 else 0
  }

  /** fixed_faults (lines 187 to 213): no oracle of the matrix may be weakened. */
  ghost predicate Frozen(p: Protocol) {
    && |p.oracles| == |FAULTS|
    && p.operator != p.checker
    && p.requestMaximum > 0
    && forall i | 0 <= i < |FAULTS| ::
         && p.oracles[i].fault == FAULTS[i]
         && Coherent(p.oracles[i])
         && OracleKept(p.oracles[i], p.requestMaximum)
  }

  predicate OracleKept(o: Oracle, requestMaximum: nat) {
    && o.expected == (if OneEntry(o.fault) then Enters else Deny)
    && (FullExposure(o.fault) ==> o.exposure >= requestMaximum)
    && o.claims == (if ClaimAllowed(o.fault) then 1 else 0)
    && o.assignments == (if NoAssignment(o.fault) then 0 else 1)
  }

  // -------------------------------------------------------------------------
  // The judgement (lines 456 to 506)
  // -------------------------------------------------------------------------

  predicate OracleMet(o: Oracle, x: Observation) {
    x.passed && x.status == o.expected && x.state == o.state && x.hasSource
  }

  predicate ObservationValid(p: Protocol, e: Evidence, x: Observation) {
    p.frozenAt <= x.at <= e.assembledAt && x.producer == p.operator && x.checker == p.checker && x.producer != x.checker
  }

  predicate StateHolds(o: Oracle, x: Observation) {
    && x.assignments <= o.assignments && x.claims <= o.claims && x.intents <= o.intents && x.entries <= o.entries
    && x.entries <= x.intents <= x.claims <= x.assignments
    && x.exposure >= o.exposure
    && x.after >= x.before
    && (o.expected == Enters ==> x.entries == 1)
    && (FullExposure(o.fault) ==> x.claims == 1)
    && (o.fault == KilledAssignment ==> x.assignments == 1)
    && (StopFault(o.fault) ==> x.after > x.before)
  }

  datatype Reason = CoverageInvalid | OracleNotMet | ObservationInvalid | StateFailed | Other(name: string)

  /** What one oracle adds to the reasons; a fault without an observation adds none here. */
  function ReasonsOf(p: Protocol, e: Evidence, o: Oracle): set<Reason> {
    if o.fault !in e.observed then {}
    else
      var x := e.observed[o.fault];
      (if OracleMet(o, x) then {} else {OracleNotMet})
      + (if ObservationValid(p, e, x) then {} else {ObservationInvalid})
      + (if StateHolds(o, x) then {} else {StateFailed})
  }

  function AllReasons(p: Protocol, e: Evidence, n: nat): set<Reason>
    requires n <= |p.oracles|
  {
    if n == 0 then {} else AllReasons(p, e, n - 1) + ReasonsOf(p, e, p.oracles[n - 1])
  }

  function Expected(p: Protocol): set<Fault> {
    set o | o in p.oracles :: o.fault
  }

  /**
   * The part of validate_operating_gate that judges the matrix. The joins, windows,
   * limits and reviews are conjunctions over other records; their reasons come in.
   */
  method JudgeMatrix(p: Protocol, e: Evidence, others: set<Reason>) returns (reasons: set<Reason>)
    ensures reasons
            == others + AllReasons(p, e, |p.oracles|) + if e.observed.Keys == Expected(p) then {} else {CoverageInvalid}
  {
    hide ReasonsOf;
    reasons := others;
    if e.observed.Keys != Expected(p) {
      reasons := reasons + {CoverageInvalid};
    }
    for i := 0 to |p.oracles|
      invariant reasons == others + AllReasons(p, e, i)
                    + if e.observed.Keys == Expected(p) then {} else {CoverageInvalid}
    {
      var found := JudgeOne(p, e, p.oracles[i]);
      reasons := reasons + found;
    }
  }

  /** The body of the loop. */
  method JudgeOne(p: Protocol, e: Evidence, o: Oracle) returns (reasons: set<Reason>)
    ensures reasons == ReasonsOf(p, e, o)
  {
    hide OracleMet, ObservationValid, StateHolds;
    reasons := {};
    if o.fault !in e.observed {
      return;
    }
    var x := e.observed[o.fault];
    if !OracleMet(o, x) {
      reasons := reasons + {OracleNotMet};
    }
    if !ObservationValid(p, e, x) {
      reasons := reasons + {ObservationInvalid};
    }
    if !StateHolds(o, x) {
      reasons := reasons + {StateFailed};
    }
  }

  // -------------------------------------------------------------------------
  // What a reviewable pair conserves
  // -------------------------------------------------------------------------

  ghost predicate Reviewable(p: Protocol, e: Evidence) {
    Frozen(p) && AllReasons(p, e, |p.oracles|) == {} && e.observed.Keys == Expected(p)
  }

  function Place(f: Fault): nat {
    match f
    case MissingGo => 0 case ChangedManifest => 1 case ChangedBuild => 2 case UnsignedRelease => 3
    case OutsideOwner => 4 case DuplicateTask => 5 case FreshSession => 6
    case LastSlot => 7 case ConcurrentClaim => 8 case KilledAssignment => 9 case AmbiguousClaim => 10
    case AuditOutage => 11 case AlertLoss => 12 case StaleClock => 13 case StopInflight => 14
    case RouteBeforeClaim => 15 case RouteAfterClaim => 16 case RouteAfterFinalRead => 17 case StaleFallback => 18
    case StopBeforeClaim => 19 case StopAfterClaim => 20 case StopAfterFinalRead => 21 case RecoveryReentry => 22
    case EarlyClose => 23 case MissingFollowup => 24 case CancelledTask => 25 case ReplacementDraw => 26
    case WitnessRollback => 27 case LocalRollback => 28 case AuditRollback => 29 case CombinedRollback => 30
    case ChangedRubric => 31 case ChangedPolicy => 32 case EarlyAssessment => 33 case UnregisteredClaim => 34
  }

  lemma PlacedFirst(f: Fault)
    ensures |FIRST| == 19 && (Place(f) < 19 ==> FIRST[Place(f)] == f)
  {
  }

  lemma PlacedSecond(f: Fault)
    ensures |SECOND| == 16 && Place(f) < 35 && (Place(f) >= 19 ==> SECOND[Place(f) - 19] == f)
  {
  }

  lemma Placed(f: Fault)
    ensures Place(f) < |FAULTS| && FAULTS[Place(f)] == f
  {
    hide Place;
    PlacedFirst(f);
    PlacedSecond(f);
  }

  lemma {:induction false} NoReasonAt(p: Protocol, e: Evidence, n: nat, i: nat)
    requires i < n <= |p.oracles| && AllReasons(p, e, n) == {}
    ensures ReasonsOf(p, e, p.oracles[i]) == {}
    decreases n
  {
    if i < n - 1 {
      assert AllReasons(p, e, n - 1) <= AllReasons(p, e, n);
      NoReasonAt(p, e, n - 1, i);
    } else {
      assert ReasonsOf(p, e, p.oracles[i]) <= AllReasons(p, e, n);
    }
  }

  /** Every fault of the matrix was observed, in a state its frozen oracle admits. */
  lemma ObservedWithin(p: Protocol, e: Evidence, f: Fault)
    requires Reviewable(p, e)
    ensures f in e.observed
    ensures StateHolds(p.oracles[Place(f)], e.observed[f]) && OracleMet(p.oracles[Place(f)], e.observed[f])
    ensures p.oracles[Place(f)].fault == f && OracleKept(p.oracles[Place(f)], p.requestMaximum)
    ensures Coherent(p.oracles[Place(f)])
  {
    Placed(f);
    var o := p.oracles[Place(f)];
    assert o.fault == FAULTS[Place(f)];
    assert o in p.oracles && f in Expected(p);
    NoReasonAt(p, e, |p.oracles|, Place(f));
  }

  /** What the oracle and the judgement together fix about one fault. */
  lemma FaultFixed(p: Protocol, e: Evidence, f: Fault)
    requires Reviewable(p, e)
    ensures f in e.observed
    ensures var x := e.observed[f];
            && x.entries == (if OneEntry(f) then 1 else 0)
            && x.claims == (if ClaimAllowed(f) then 1 else 0)
            && x.claims <= x.assignments
            && x.exposure >= (if FullExposure(f) then p.requestMaximum else 0)
            && x.after >= x.before && (StopFault(f) ==> x.after > x.before)
  {
    hide Reviewable;
    ObservedWithin(p, e, f);
  }

  function SumFirst(v: Fault -> nat): nat {
    v(MissingGo) + v(ChangedManifest) + v(ChangedBuild) + v(UnsignedRelease)
    + v(OutsideOwner) + v(DuplicateTask) + v(FreshSession)
    + v(LastSlot) + v(ConcurrentClaim) + v(KilledAssignment) + v(AmbiguousClaim)
    + v(AuditOutage) + v(AlertLoss) + v(StaleClock) + v(StopInflight)
    + v(RouteBeforeClaim) + v(RouteAfterClaim) + v(RouteAfterFinalRead) + v(StaleFallback)
  }

  function SumSecond(v: Fault -> nat): nat {
    v(StopBeforeClaim) + v(StopAfterClaim) + v(StopAfterFinalRead) + v(RecoveryReentry)
    + v(EarlyClose) + v(MissingFollowup) + v(CancelledTask) + v(ReplacementDraw)
    + v(WitnessRollback) + v(LocalRollback) + v(AuditRollback) + v(CombinedRollback)
    + v(ChangedRubric) + v(ChangedPolicy) + v(EarlyAssessment) + v(UnregisteredClaim)
  }

  /** The sum of a measure over the whole matrix, each fault once. */
  function Sum(v: Fault -> nat): nat {
    SumFirst(v) + SumSecond(v)
  }

  function At(e: Evidence, f: Fault): Observation {
    if f in e.observed then e.observed[f]
    else Observation(false, Deny, "", false, "", "", 0, 0, 0, 0, 0, 0, 0, 0)
  }

  lemma SumAtLeast(v: Fault -> nat, w: Fault -> nat)
    requires forall f :: v(f) >= w(f)
    ensures Sum(v) >= Sum(w)
  {
  }

  lemma SumSame(v: Fault -> nat, w: Fault -> nat)
    requires forall f :: v(f) == w(f)
    ensures Sum(v) == Sum(w)
  {
  }

  lemma EntrySum()
    ensures SumFirst(f => if OneEntry(f) then 1 else 0) == 4
    ensures SumSecond(f => if OneEntry(f) then 1 else 0) == 1
  {
  }

  lemma ClaimSumFirst()
    ensures SumFirst(f => if ClaimAllowed(f) then 1 else 0) == 6
  {
  }

  lemma ClaimSumSecond()
    ensures SumSecond(f => if ClaimAllowed(f) then 1 else 0) == 2
  {
  }

  lemma ExposureSum(maximum: nat)
    ensures SumFirst(f => if FullExposure(f) then maximum else 0) == 4 * maximum
    ensures SumSecond(f => if FullExposure(f) then maximum else 0) == 2 * maximum
  {
  }

  /**
   * Conservation over the matrix. Whatever the protocol and evidence, a reviewable
   * pair observed exactly five transport entries and eight claims, retained at
   * least six request maxima of exposure, never claimed more than it assigned, and
   * advanced the checkpoint on every stop.
   */
  lemma MatrixConserves(p: Protocol, e: Evidence)
    requires Reviewable(p, e)
    ensures Sum(f => At(e, f).entries) == 5
    ensures Sum(f => At(e, f).claims) == 8
    ensures Sum(f => At(e, f).exposure) >= 6 * p.requestMaximum
    ensures forall f :: f in e.observed && At(e, f).claims <= At(e, f).assignments
    ensures forall f | StopFault(f) :: At(e, f).after > At(e, f).before
  {
    hide Reviewable, SumFirst, SumSecond, OneEntry, ClaimAllowed, FullExposure, StopFault;
    EntrySum();
    ClaimSumFirst();
    ClaimSumSecond();
    ExposureSum(p.requestMaximum);
    forall f ensures f in e.observed
             ensures var x := At(e, f);
                     && x.entries == (if OneEntry(f) then 1 else 0) && x.claims == (if ClaimAllowed(f) then 1 else 0)
                     && x.claims <= x.assignments && x.exposure >= (if FullExposure(f) then p.requestMaximum else 0)
                     && (StopFault(f) ==> x.after > x.before)
    {
      FaultFixed(p, e, f);
    }
    SumSame(f => At(e, f).entries, f => if OneEntry(f) then 1 else 0);
    SumSame(f => At(e, f).claims, f => if ClaimAllowed(f) then 1 else 0);
    SumAtLeast(f => At(e, f).exposure, f => if FullExposure(f) then p.requestMaximum else 0);
  }
}
