/**
 * The dependency closure of a release (tools/release_sbom.py, lines 109 to 146):
 * a queue of distributions whose requested extras grow while they are visited.
 */
module SbomGraph {
  import opened Prelude
  import opened AppVersion
  import opened SbomMarkers

  datatype Requirement = Requirement(name: string, extras: set<string>, marker: Marker)

  datatype Distribution = Distribution(version: string, requirements: seq<Requirement>)

  /** The metadata of one archive, the frozen pins and the platform. */
  datatype Inputs = Inputs(
    metadata: map<string, Distribution>,
    pins: map<string, string>,
    platform: Platform,
    digits: Numerals)

  type Extras = map<string, set<string>>

  type Graph = map<string, set<string>>

  const APPLICATION := "mos-eisley"
  const MAX_EXTRAS := 128
  const MAX_VISITS := 10000

  function Applies(x: Inputs, r: Requirement, extra: string): Option<bool> {
    MarkerApplies(r.marker, EnvironmentOf(x.platform, extra), x.digits)
  }

  predicate Enabled(x: Inputs, r: Requirement, extras: set<string>) {
    exists e | e in extras :: Applies(x, r, e) == Some(true)
  }

  function Selected(r: Requirement): set<string> {
    {""} + r.extras
  }

  function Requirements(x: Inputs, n: string): seq<Requirement> {
    if n in x.metadata then x.metadata[n].requirements else []
  }

  function Of(extras: Extras, n: string): set<string> {
    if n in extras then extras[n] else {}
  }

  // -------------------------------------------------------------------------
  // The closure, said without an algorithm
  // -------------------------------------------------------------------------

  /** Every requirement of n that its extras enable is in E with the extras it asks for. */
  ghost predicate Closed(x: Inputs, E: Extras, n: string) {
    forall i | 0 <= i < |Requirements(x, n)| ::
      Enabled(x, Requirements(x, n)[i], Of(E, n)) ==>
        Requirements(x, n)[i].name in E && Selected(Requirements(x, n)[i]) <= Of(E, Requirements(x, n)[i].name)
  }

  ghost predicate Solution(x: Inputs, roots: seq<string>, E: Extras) {
    && (forall r | r in roots :: r in E && "" in E[r])
    && (forall n | n in E :: Closed(x, E, n))
  }

  ghost predicate Below(E: Extras, F: Extras) {
    forall n | n in E :: n in F && E[n] <= F[n]
  }

  ghost predicate LowerBound(x: Inputs, roots: seq<string>, E: Extras) {
    forall F: Extras | Solution(x, roots, F) :: Below(E, F)
  }

  ghost predicate Least(x: Inputs, roots: seq<string>, E: Extras) {
    Solution(x, roots, E) && LowerBound(x, roots, E)
  }

  function Edges(x: Inputs, E: Extras, n: string): set<string> {
    set i | 0 <= i < |Requirements(x, n)| && Enabled(x, Requirements(x, n)[i], Of(E, n)) :: Requirements(x, n)[i].name
  }

  /** Each distribution is there in its pinned version, and so is everything it requires. */
  ghost predicate Locked(x: Inputs, E: Extras) {
    forall n | n in E ::
      && n in x.metadata
      && (n != APPLICATION ==> n in x.pins && x.pins[n] == x.metadata[n].version)
      && |E[n]| <= MAX_EXTRAS
      && (forall m | m in Edges(x, E, n) :: m in x.pins)
  }

  /** No marker of a reached distribution fails under an extra it was reached with. */
  ghost predicate Decided(x: Inputs, E: Extras) {
    forall n, i, e | n in E && 0 <= i < |Requirements(x, n)| && e in E[n] ::
      Applies(x, Requirements(x, n)[i], e).Some?
  }

  lemma LeastUnique(x: Inputs, roots: seq<string>, E: Extras, F: Extras)
    requires Least(x, roots, E) && Least(x, roots, F)
    ensures E == F
  {
    assert Below(E, F) && Below(F, E);
    assert E.Keys == F.Keys;
    assert forall n | n in E :: E[n] == F[n];
  }

  // -------------------------------------------------------------------------
  // The state of the loop
  // -------------------------------------------------------------------------

  datatype S = S(queue: seq<string>, graph: Graph, extras: Extras)

  /** The effect of one enabled requirement of owner (lines 136 to 145). */
  function Relax(s: S, owner: string, r: Requirement): S
    requires owner in s.graph
  {
    var graph := s.graph[owner := s.graph[owner] + {r.name}];
    var before := Of(s.extras, r.name);
    var after := before + Selected(r);
    if r.name !in graph || after != before then
      S(if r.name in s.queue then s.queue else s.queue + [r.name], graph, s.extras[r.name := after])
    else s.(graph := graph)
  }

  /** Whatever has extras was visited or waits. */
  ghost predicate Waiting(s: S) {
    && (forall n | n in s.extras :: n in s.graph || n in s.queue)
    && (forall n | n in s.graph :: n in s.extras)
    && (forall n | n in s.queue :: n in s.extras)
  }

  ghost predicate EdgesSound(x: Inputs, s: S, n: string) {
    n in s.graph && s.graph[n] <= Edges(x, s.extras, n)
  }

  /** The first k requirements of n are followed for its current extras. */
  ghost predicate Followed(x: Inputs, s: S, n: string, k: nat) {
    && n in s.graph
    && forall i | 0 <= i < k && i < |Requirements(x, n)| ::
         Enabled(x, Requirements(x, n)[i], Of(s.extras, n)) ==>
           && Requirements(x, n)[i].name in s.graph[n]
           && Requirements(x, n)[i].name in s.extras
           && Selected(Requirements(x, n)[i]) <= Of(s.extras, Requirements(x, n)[i].name)
  }

  ghost predicate Tidy(x: Inputs, s: S, n: string) {
    && n in x.metadata
    && EdgesSound(x, s, n)
    && (n !in s.queue ==> Followed(x, s, n, |Requirements(x, n)|))
  }

  ghost predicate Consistent(x: Inputs, roots: seq<string>, s: S) {
    && Waiting(s)
    && (forall n | n in s.graph :: Tidy(x, s, n))
    && LowerBound(x, roots, s.extras)
    && (forall r | r in roots :: r in s.extras && "" in s.extras[r])
  }

  /** While owner is being visited with the extras it had when it was taken from the queue. */
  ghost predicate Visiting(x: Inputs, roots: seq<string>, s: S, owner: string, k: nat, taken: set<string>) {
    && Waiting(s)
    && (forall n | n in s.graph && n != owner :: Tidy(x, s, n))
    && owner in x.metadata && EdgesSound(x, s, owner)
    && (owner !in s.queue ==> Of(s.extras, owner) == taken && Followed(x, s, owner, k))
    && LowerBound(x, roots, s.extras)
    && (forall r | r in roots :: r in s.extras && "" in s.extras[r])
  }

  // -------------------------------------------------------------------------
  // One requirement
  // -------------------------------------------------------------------------

  lemma EnabledMore(x: Inputs, r: Requirement, some: set<string>, more: set<string>)
    requires Enabled(x, r, some) && some <= more
    ensures Enabled(x, r, more)
  {
    var e :| e in some && Applies(x, r, e) == Some(true);
    assert e in more;
  }

  lemma EdgesMore(x: Inputs, E: Extras, F: Extras, n: string)
    requires Of(E, n) <= Of(F, n)
    ensures Edges(x, E, n) <= Edges(x, F, n)
  {
    hide Applies;
    forall m | m in Edges(x, E, n) ensures m in Edges(x, F, n) {
      var i :| 0 <= i < |Requirements(x, n)| && Enabled(x, Requirements(x, n)[i], Of(E, n))
               && Requirements(x, n)[i].name == m;
      EnabledMore(x, Requirements(x, n)[i], Of(E, n), Of(F, n));
    }
  }

  /** What one enabled requirement changes: extras grow, the owner gains an edge, changed names wait. */
  lemma RelaxFacts(s: S, owner: string, r: Requirement)
    requires owner in s.graph && Waiting(s)
    ensures var t := Relax(s, owner, r);
            && Waiting(t)
            && t.graph.Keys == s.graph.Keys
            && t.graph[owner] == s.graph[owner] + {r.name}
            && (forall n | n in s.graph && n != owner :: t.graph[n] == s.graph[n])
            && (forall n :: Of(s.extras, n) <= Of(t.extras, n))
            && (forall n | n in s.extras :: n in t.extras)
            && r.name in t.extras && Of(t.extras, r.name) == Of(s.extras, r.name) + Selected(r)
            && (forall n | n != r.name :: (n in t.extras <==> n in s.extras) && Of(t.extras, n) == Of(s.extras, n))
            && (forall n | n in s.queue :: n in t.queue)
            && (forall n | n !in t.queue :: n !in s.queue)
            && (forall n | n !in t.queue && n in s.extras :: Of(t.extras, n) == Of(s.extras, n))
  {
    var t := Relax(s, owner, r);
    if r.name !in s.queue {
      assert forall n :: n in s.queue + [r.name] <==> n in s.queue || n == r.name;
    }
  }

  lemma FollowedKept(x: Inputs, s: S, t: S, n: string, k: nat)
    requires Followed(x, s, n, k) && n in t.graph && s.graph[n] <= t.graph[n]
    requires Of(t.extras, n) == Of(s.extras, n)
    requires forall m :: Of(s.extras, m) <= Of(t.extras, m)
    requires forall m | m in s.extras :: m in t.extras
    ensures Followed(x, t, n, k)
  {
    hide Enabled;
  }

  lemma OthersTidy(x: Inputs, s: S, owner: string, r: Requirement, n: string)
    requires owner in s.graph && Waiting(s) && n in s.graph && n != owner && Tidy(x, s, n)
    ensures Tidy(x, Relax(s, owner, r), n)
  {
    hide Enabled, Relax, Edges, Followed, Waiting;
    var t := Relax(s, owner, r);
    RelaxFacts(s, owner, r);
    WaitingHas(s, n);
    EdgesMore(x, s.extras, t.extras, n);
    if n !in t.queue {
      FollowedKept(x, s, t, n, |Requirements(x, n)|);
    }
  }

  lemma WaitingHas(s: S, n: string)
    requires Waiting(s) && n in s.graph
    ensures n in s.extras
  {
  }

  lemma EnabledEdge(x: Inputs, E: Extras, n: string, i: nat)
    requires i < |Requirements(x, n)| && Enabled(x, Requirements(x, n)[i], Of(E, n))
    ensures Requirements(x, n)[i].name in Edges(x, E, n)
  {
  }

  /** The solutions all hold what a requirement adds. */
  lemma BoundKept(x: Inputs, roots: seq<string>, s: S, owner: string, i: nat)
    requires LowerBound(x, roots, s.extras) && owner in s.extras && owner in s.graph && Waiting(s)
    requires i < |Requirements(x, owner)| && Enabled(x, Requirements(x, owner)[i], Of(s.extras, owner))
    ensures LowerBound(x, roots, Relax(s, owner, Requirements(x, owner)[i]).extras)
  {
    hide Relax, Enabled, Solution;
    var r := Requirements(x, owner)[i];
    var t := Relax(s, owner, r);
    RelaxFacts(s, owner, r);
    forall F: Extras | Solution(x, roots, F) ensures Below(t.extras, F) {
      assert Below(s.extras, F);
      EnabledMore(x, r, Of(s.extras, owner), Of(F, owner));
      SolutionHolds(x, roots, F, owner, i);
    }
  }

  lemma SolutionHolds(x: Inputs, roots: seq<string>, F: Extras, n: string, i: nat)
    requires Solution(x, roots, F) && n in F && i < |Requirements(x, n)|
    requires Enabled(x, Requirements(x, n)[i], Of(F, n))
    ensures Requirements(x, n)[i].name in F && Selected(Requirements(x, n)[i]) <= Of(F, Requirements(x, n)[i].name)
  {
    assert Closed(x, F, n);
  }

  lemma OwnerFollowed(x: Inputs, s: S, owner: string, k: nat)
    requires owner in s.graph && Waiting(s) && owner in s.extras
    requires owner !in s.queue ==> Followed(x, s, owner, k)
    requires k < |Requirements(x, owner)|
    ensures var t := Relax(s, owner, Requirements(x, owner)[k]);
            owner !in t.queue ==> Of(t.extras, owner) == Of(s.extras, owner) && Followed(x, t, owner, k + 1)
  {
    hide Relax, Enabled, Waiting;
    var r := Requirements(x, owner)[k];
    var t := Relax(s, owner, r);
    RelaxFacts(s, owner, r);
    if owner !in t.queue {
      FollowedKept(x, s, t, owner, k);
    }
  }

  /** Following one enabled requirement keeps the loop's state. */
  lemma RelaxKeeps(x: Inputs, roots: seq<string>, s: S, owner: string, k: nat, taken: set<string>)
    requires Visiting(x, roots, s, owner, k, taken)
    requires k < |Requirements(x, owner)| && Enabled(x, Requirements(x, owner)[k], Of(s.extras, owner))
    ensures Visiting(x, roots, Relax(s, owner, Requirements(x, owner)[k]), owner, k + 1, taken)
  {
    hide Relax, Enabled, Tidy, Followed, Edges, LowerBound, Waiting;
    var r := Requirements(x, owner)[k];
    var t := Relax(s, owner, r);
    WaitingHas(s, owner);
    RelaxFacts(s, owner, r);
    forall n | n in t.graph && n != owner ensures Tidy(x, t, n) {
      OthersTidy(x, s, owner, r, n);
    }
    EnabledEdge(x, s.extras, owner, k);
    EdgesMore(x, s.extras, t.extras, owner);
    OwnerFollowed(x, s, owner, k);
    BoundKept(x, roots, s, owner, k);
    RootsKept(roots, s, t);
  }

  lemma RootsKept(roots: seq<string>, s: S, t: S)
    requires forall r | r in roots :: r in s.extras && "" in s.extras[r]
    requires forall n :: Of(s.extras, n) <= Of(t.extras, n)
    requires forall n | n in s.extras :: n in t.extras
    ensures forall r | r in roots :: r in t.extras && "" in t.extras[r]
  {
    forall r | r in roots ensures r in t.extras && "" in t.extras[r] {
      assert Of(s.extras, r) <= Of(t.extras, r);
    }
  }

  /** Passing over a requirement that is not enabled. */
  lemma SkipKeeps(x: Inputs, roots: seq<string>, s: S, owner: string, k: nat, taken: set<string>)
    requires Visiting(x, roots, s, owner, k, taken)
    requires k < |Requirements(x, owner)| && !Enabled(x, Requirements(x, owner)[k], Of(s.extras, owner))
    ensures Visiting(x, roots, s, owner, k + 1, taken)
  {
    hide Enabled, Tidy, Edges, LowerBound, Waiting;
  }

  // -------------------------------------------------------------------------
  // The measure
  // -------------------------------------------------------------------------

  function Pairs(E: Extras): set<(string, string)> {
    set n, e | n in E && e in E[n] :: (n, e)
  }

  function Names(x: Inputs, roots: seq<string>): set<string> {
    (set r | r in roots) + (set n, i | n in x.metadata && 0 <= i < |Requirements(x, n)| :: Requirements(x, n)[i].name)
  }

  function Asked(x: Inputs): set<string> {
    {""} + (set n, i, e | n in x.metadata && 0 <= i < |Requirements(x, n)| && e in Requirements(x, n)[i].extras :: e)
  }

  /** Every pair the closure could ever reach. */
  function Universe(x: Inputs, roots: seq<string>): set<(string, string)> {
    set n, e | n in Names(x, roots) && e in Asked(x) :: (n, e)
  }

  /** Progress since a distribution was taken: nothing changed and the queue is shorter, or pairs were added. */
  ghost predicate Progress(x: Inputs, roots: seq<string>, was: Extras, tail: seq<string>, s: S) {
    && Pairs(was) <= Pairs(s.extras) <= Universe(x, roots)
    && (Pairs(s.extras) == Pairs(was) ==> s.queue == tail)
    && |s.queue| + |Pairs(was)| <= |tail| + |Pairs(s.extras)|
  }

  lemma RelaxPairs(x: Inputs, roots: seq<string>, s: S, owner: string, i: nat)
    requires owner in s.graph && Waiting(s) && i < |Requirements(x, owner)| && owner in x.metadata
    requires Pairs(s.extras) <= Universe(x, roots)
    ensures var t := Relax(s, owner, Requirements(x, owner)[i]);
            && Pairs(s.extras) <= Pairs(t.extras) <= Universe(x, roots)
            && (t.queue == s.queue || (|t.queue| == |s.queue| + 1 && Pairs(s.extras) < Pairs(t.extras)))
  {
    hide Requirements, Relax;
    var r := Requirements(x, owner)[i];
    var t := Relax(s, owner, r);
    RelaxFacts(s, owner, r);
    forall n, e | n in t.extras && e in t.extras[n] ensures (n, e) in Universe(x, roots) {
      if n == r.name && e in Selected(r) {
        AskedFor(x, roots, owner, i, e);
      } else {
        assert (n, e) in Pairs(s.extras);
      }
    }
    if t.queue != s.queue {
      RelaxQueues(s, owner, r);
    }
  }

  lemma AskedFor(x: Inputs, roots: seq<string>, owner: string, i: nat, e: string)
    requires owner in x.metadata && i < |Requirements(x, owner)| && e in Selected(Requirements(x, owner)[i])
    ensures (Requirements(x, owner)[i].name, e) in Universe(x, roots)
  {
  }

  lemma RelaxQueues(s: S, owner: string, r: Requirement)
    requires owner in s.graph && Waiting(s) && Relax(s, owner, r).queue != s.queue
    ensures var t := Relax(s, owner, r);
            |t.queue| == |s.queue| + 1 && exists e :: (r.name, e) in Pairs(t.extras) && (r.name, e) !in Pairs(s.extras)
  {
    var t := Relax(s, owner, r);
    assert r.name !in s.queue && t.queue == s.queue + [r.name];
    if r.name !in s.extras {
      assert (r.name, "") in Pairs(t.extras);
    } else {
      var e :| e in Selected(r) && e !in s.extras[r.name];
      assert (r.name, e) in Pairs(t.extras);
    }
  }

  lemma ProgressMore(x: Inputs, roots: seq<string>, was: Extras, tail: seq<string>, s: S, owner: string, i: nat)
    requires Progress(x, roots, was, tail, s)
    requires owner in s.graph && Waiting(s) && i < |Requirements(x, owner)| && owner in x.metadata
    ensures Progress(x, roots, was, tail, Relax(s, owner, Requirements(x, owner)[i]))
  {
    hide Requirements, Relax, Waiting;
    RelaxPairs(x, roots, s, owner, i);
    var t := Relax(s, owner, Requirements(x, owner)[i]);
    if t.queue != s.queue {
      assert Pairs(t.extras) == Pairs(s.extras) + (Pairs(t.extras) - Pairs(s.extras));
      assert Pairs(t.extras) - Pairs(s.extras) != {};
    } else {
      SubsetSize(Pairs(s.extras), Pairs(t.extras));
    }
  }

  // -------------------------------------------------------------------------
  // The algorithm
  // -------------------------------------------------------------------------

  /** any(...): None when a marker fails before one applies. The order only matters when a marker fails. */
  method AnyApplies(x: Inputs, r: Requirement, extras: set<string>) returns (b: Option<bool>)
    ensures b.Some? ==> b.value == Enabled(x, r, extras)
    ensures (forall e | e in extras :: Applies(x, r, e).Some?) ==> b.Some?
  {
    hide Applies;
    var left := extras;
    while left != {}
      invariant left <= extras
      invariant forall e | e in extras && e !in left :: Applies(x, r, e) == Some(false)
    {
      var e :| e in left;
      var one := Applies(x, r, e);
      if one.None? {
        return None;
      }
      if one.value {
        return Some(true);
      }
      left := left - {e};
    }
    b := Some(false);
  }

  /** A closure in which nothing can go wrong, within the cap on visits. */
  ghost predicate Admits(x: Inputs, roots: seq<string>, F: Extras) {
    && Solution(x, roots, F) && Locked(x, F) && Decided(x, F)
    && |roots| + |Pairs(F)| <= MAX_VISITS
  }

  /** What the loop has checked of the part of the closure it has reached. */
  ghost predicate Checked(x: Inputs, s: S) {
    forall n | n in s.graph ::
      && n in x.metadata
      && (n != APPLICATION ==> n in x.pins && x.pins[n] == x.metadata[n].version)
      && forall m | m in s.graph[n] :: m in x.pins
  }

  lemma AnyDecided(x: Inputs, roots: seq<string>, F: Extras, E: Extras, owner: string, i: nat)
    requires Admits(x, roots, F) && Below(E, F) && owner in E && i < |Requirements(x, owner)|
    ensures forall e | e in E[owner] :: Applies(x, Requirements(x, owner)[i], e).Some?
  {
    hide Applies, Solution, Locked;
    forall e | e in E[owner] ensures Applies(x, Requirements(x, owner)[i], e).Some? {
      assert e in F[owner];
    }
  }

  lemma TargetAdmitted(x: Inputs, roots: seq<string>, F: Extras, E: Extras, owner: string, i: nat)
    requires Admits(x, roots, F) && Below(E, F) && owner in E && i < |Requirements(x, owner)|
    requires Enabled(x, Requirements(x, owner)[i], Of(E, owner))
    ensures var r := Requirements(x, owner)[i];
            r.name in x.pins && r.name in x.metadata && |Of(E, r.name) + Selected(r)| <= MAX_EXTRAS
  {
    hide Applies, Enabled, Decided, Requirements;
    var r := Requirements(x, owner)[i];
    EnabledMore(x, r, Of(E, owner), Of(F, owner));
    SolutionHolds(x, roots, F, owner, i);
    EnabledEdge(x, F, owner, i);
    SubsetSize(Of(E, r.name) + Selected(r), F[r.name]);
  }

  /** The inner loop: follow the requirements of one distribution. */
  method VisitDistribution(x: Inputs, roots: seq<string>, s: S, owner: string, ghost F: Extras) returns (t: Option<S>)
    requires Visiting(x, roots, s, owner, 0, Of(s.extras, owner)) && Pairs(s.extras) <= Universe(x, roots)
    requires owner in s.extras && Checked(x, s) && Bounded(s.extras)
    ensures t.Some? ==>
              && Visiting(x, roots, t.value, owner, |Requirements(x, owner)|, Of(s.extras, owner))
              && Progress(x, roots, s.extras, s.queue, t.value)
              && Checked(x, t.value) && Bounded(t.value.extras) && t.value.graph.Keys == s.graph.Keys
    ensures Admits(x, roots, F) ==> t.Some?
  {
    hide Enabled, Requirements, Visiting, Relax, Admits, Universe, Pairs, Applies, Below, LowerBound;
    var now := s;
    ghost var taken := Of(s.extras, owner);
    for k := 0 to |Requirements(x, owner)|
      invariant Visiting(x, roots, now, owner, k, taken) && Progress(x, roots, s.extras, s.queue, now)
      invariant Checked(x, now) && Bounded(now.extras) && now.graph.Keys == s.graph.Keys
      invariant owner in now.extras
    {
      var r := Requirements(x, owner)[k];
      VisitingParts(x, roots, now, owner, k, taken, F);
      if Admits(x, roots, F) { AnyDecided(x, roots, F, now.extras, owner, k); }
      var applies := AnyApplies(x, r, now.extras[owner]);
      if applies.None? {
        return None;
      }
      if applies.value {
        if Admits(x, roots, F) { TargetAdmitted(x, roots, F, now.extras, owner, k); }
        if r.name !in x.pins || r.name !in x.metadata || |Of(now.extras, r.name) + Selected(r)| > MAX_EXTRAS {
          return None;
        }
        RelaxKeeps(x, roots, now, owner, k, taken);
        ProgressMore(x, roots, s.extras, s.queue, now, owner, k);
        RelaxChecked(x, now, owner, r);
        now := Relax(now, owner, r);
      } else {
        SkipKeeps(x, roots, now, owner, k, taken);
      }
    }
    t := Some(now);
  }

  ghost predicate Bounded(E: Extras) {
    forall n | n in E :: |E[n]| <= MAX_EXTRAS
  }

  lemma VisitingParts(x: Inputs, roots: seq<string>, s: S, owner: string, k: nat, taken: set<string>, F: Extras)
    requires Visiting(x, roots, s, owner, k, taken)
    ensures Waiting(s) && owner in s.graph && owner in x.metadata && owner in s.extras
    ensures Admits(x, roots, F) ==> Below(s.extras, F)
  {
  }

  lemma RelaxChecked(x: Inputs, s: S, owner: string, r: Requirement)
    requires owner in s.graph && Waiting(s) && Checked(x, s) && Bounded(s.extras)
    requires r.name in x.pins && |Of(s.extras, r.name) + Selected(r)| <= MAX_EXTRAS
    ensures Checked(x, Relax(s, owner, r)) && Bounded(Relax(s, owner, r).extras)
    ensures Relax(s, owner, r).graph.Keys == s.graph.Keys && forall n | n in s.extras :: n in Relax(s, owner, r).extras
  {
  }

  // -------------------------------------------------------------------------
  // The queue
  // -------------------------------------------------------------------------

  function Take(s: S): S
    requires s.queue != []
  {
    var n := s.queue[0];
    S(s.queue[1..], if n in s.graph then s.graph else s.graph[n := {}], s.extras)
  }

  lemma TakenTidy(x: Inputs, s: S, n: string)
    requires s.queue != [] && n in s.graph && n != s.queue[0] && Tidy(x, s, n)
    ensures Tidy(x, Take(s), n)
  {
    hide Edges, Enabled, Requirements;
    assert s.queue == [s.queue[0]] + s.queue[1..];
  }

  lemma TakeVisits(x: Inputs, roots: seq<string>, s: S)
    requires Consistent(x, roots, s) && s.queue != [] && s.queue[0] in x.metadata
    ensures var n := s.queue[0];
            && Visiting(x, roots, Take(s), n, 0, Of(Take(s).extras, n))
            && n in Take(s).extras && Take(s).extras == s.extras
  {
    hide Edges, Enabled, Requirements, LowerBound, Tidy;
    var n, t := s.queue[0], Take(s);
    assert s.queue == [n] + s.queue[1..];
    forall m | m in t.graph && m != n ensures Tidy(x, t, m) {
      TakenTidy(x, s, m);
    }
    TakenEdges(x, s);
  }

  lemma TakenEdges(x: Inputs, s: S)
    requires s.queue != [] && (s.queue[0] in s.graph ==> Tidy(x, s, s.queue[0]))
    ensures EdgesSound(x, Take(s), s.queue[0]) && Followed(x, Take(s), s.queue[0], 0)
  {
  }

  lemma VisitedConsistent(x: Inputs, roots: seq<string>, s: S, owner: string, taken: set<string>)
    requires Visiting(x, roots, s, owner, |Requirements(x, owner)|, taken)
    ensures Consistent(x, roots, s)
  {
    hide Edges, Enabled, Requirements, LowerBound, Followed;
    forall n | n in s.graph ensures Tidy(x, s, n) {
    }
  }

  function Start(roots: seq<string>): S {
    S(roots, map[], map r | r in roots :: {""})
  }

  lemma StartConsistent(x: Inputs, roots: seq<string>)
    ensures Consistent(x, roots, Start(roots)) && Checked(x, Start(roots)) && Bounded(Start(roots).extras)
    ensures Pairs(Start(roots).extras) <= Universe(x, roots)
  {
    var s := Start(roots);
    forall F: Extras | Solution(x, roots, F) ensures Below(s.extras, F) {
    }
    forall n, e | n in s.extras && e in s.extras[n] ensures (n, e) in Universe(x, roots) {
      assert n in Names(x, roots) && e in Asked(x);
    }
  }

  /** When the queue is empty, every distribution reached is settled. */
  lemma EmptyLeast(x: Inputs, roots: seq<string>, s: S)
    requires Consistent(x, roots, s) && s.queue == [] && Checked(x, s) && Bounded(s.extras)
    ensures Least(x, roots, s.extras) && Locked(x, s.extras)
    ensures s.graph.Keys == s.extras.Keys && forall n | n in s.extras :: s.graph[n] == Edges(x, s.extras, n)
  {
    hide Enabled, Requirements, LowerBound, Edges;
    assert s.graph.Keys == s.extras.Keys;
    forall n | n in s.extras ensures Closed(x, s.extras, n) && s.graph[n] == Edges(x, s.extras, n) {
      assert Tidy(x, s, n);
      FollowedClosed(x, s, n);
    }
  }

  lemma FollowedClosed(x: Inputs, s: S, n: string)
    requires EdgesSound(x, s, n) && Followed(x, s, n, |Requirements(x, n)|)
    ensures Closed(x, s.extras, n) && s.graph[n] == Edges(x, s.extras, n)
  {
    hide Enabled, Requirements;
    forall m | m in Edges(x, s.extras, n) ensures m in s.graph[n] {
      var i :| 0 <= i < |Requirements(x, n)| && Enabled(x, Requirements(x, n)[i], Of(s.extras, n))
               && Requirements(x, n)[i].name == m;
    }
  }

  lemma PopAdmitted(x: Inputs, roots: seq<string>, s: S, F: Extras, visits: nat)
    requires Consistent(x, roots, s) && s.queue != [] && Admits(x, roots, F)
    requires visits + |s.queue| <= |roots| + |Pairs(s.extras)|
    ensures visits + 1 <= MAX_VISITS
    ensures var n := s.queue[0];
            n in x.metadata && (n != APPLICATION ==> n in x.pins && x.pins[n] == x.metadata[n].version)
  {
    hide Edges, Enabled, Requirements, Tidy, Solution, Decided;
    assert s.queue[0] in s.queue;
    assert Below(s.extras, F);
    forall p | p in Pairs(s.extras) ensures p in Pairs(F) {
      assert p.0 in F && s.extras[p.0] <= F[p.0];
    }
    SubsetSize(Pairs(s.extras), Pairs(F));
  }

  lemma VisitMeasure(x: Inputs, roots: seq<string>, s: S, t: S, visits: nat)
    requires s.queue != [] && Progress(x, roots, s.extras, s.queue[1..], t)
    requires visits + |s.queue| <= |roots| + |Pairs(s.extras)|
    ensures visits + 1 + |t.queue| <= |roots| + |Pairs(t.extras)|
    ensures Pairs(t.extras) <= Universe(x, roots)
    ensures Universe(x, roots) - Pairs(t.extras) < Universe(x, roots) - Pairs(s.extras)
            || (Universe(x, roots) - Pairs(t.extras) == Universe(x, roots) - Pairs(s.extras) && |t.queue| < |s.queue|)
  {
    hide Universe, Pairs;
    if Pairs(t.extras) != Pairs(s.extras) {
      var p :| p in Pairs(t.extras) && p !in Pairs(s.extras);
      assert p in Universe(x, roots) - Pairs(s.extras);
    }
  }

  /**
   * _graph. What it returns is the graph of the least solution: every distribution
   * reached, each with the edges that its final extras enable. It terminates
   * without the cap: pairs of a distribution and an extra run out, or the queue
   * does. And it succeeds whenever the closure contains nothing to refuse and the
   * roots and pairs together stay within the cap, whatever the order.
   */
  method BuildGraph(x: Inputs, roots: seq<string>, ghost F: Extras) returns (r: Option<Graph>, ghost E: Extras)
    ensures r.Some? ==>
              && Least(x, roots, E) && Locked(x, E)
              && r.value.Keys == E.Keys
              && forall n | n in E :: r.value[n] == Edges(x, E, n)
    ensures Admits(x, roots, F) ==> r.Some?
  {
    hide Consistent, Visiting, Checked, Bounded, Admits, Universe, Pairs, Progress, Least, Locked, Edges;
    var s := Start(roots);
    var visits := 0;
    E := map[];
    StartConsistent(x, roots);
    while s.queue != []
      invariant Consistent(x, roots, s) && Checked(x, s) && Bounded(s.extras)
      invariant Pairs(s.extras) <= Universe(x, roots)
      invariant visits + |s.queue| <= |roots| + |Pairs(s.extras)|
      decreases Universe(x, roots) - Pairs(s.extras), |s.queue|
    {
      var name := s.queue[0];
      if Admits(x, roots, F) { PopAdmitted(x, roots, s, F, visits); }
      visits := visits + 1;
      if visits > MAX_VISITS || name !in x.metadata {
        return None, map[];
      }
      if name != APPLICATION && (name !in x.pins || x.pins[name] != x.metadata[name].version) {
        return None, map[];
      }
      TakeVisits(x, roots, s);
      TakeChecked(x, s);
      var t := VisitDistribution(x, roots, Take(s), name, F);
      if t.None? {
        return None, map[];
      }
      VisitMeasure(x, roots, s, t.value, visits - 1);
      VisitedConsistent(x, roots, t.value, name, Of(s.extras, name));
      s := t.value;
    }
    EmptyLeast(x, roots, s);
    r, E := Some(s.graph), s.extras;
  }

  lemma TakeChecked(x: Inputs, s: S)
    requires s.queue != [] && Checked(x, s) && Bounded(s.extras)
    requires var n := s.queue[0];
             n in x.metadata && (n != APPLICATION ==> n in x.pins && x.pins[n] == x.metadata[n].version)
    ensures Checked(x, Take(s)) && Bounded(Take(s).extras)
  {
  }

  // -------------------------------------------------------------------------
  // Order
  // -------------------------------------------------------------------------

  /** The same declarations, in another order or repeated. */
  ghost predicate SameDeclarations(x: Inputs, y: Inputs) {
    && x.platform == y.platform && x.digits == y.digits
    && forall n, r :: r in Requirements(x, n) <==> r in Requirements(y, n)
  }

  lemma ClosedReordered(x: Inputs, y: Inputs, E: Extras, n: string)
    requires SameDeclarations(x, y) && Closed(x, E, n)
    ensures Closed(y, E, n)
  {
    hide Requirements, MarkerApplies;
    forall i | 0 <= i < |Requirements(y, n)| && Enabled(y, Requirements(y, n)[i], Of(E, n))
      ensures Requirements(y, n)[i].name in E && Selected(Requirements(y, n)[i]) <= Of(E, Requirements(y, n)[i].name)
    {
      var r := Requirements(y, n)[i];
      assert r in Requirements(y, n);
      var j :| 0 <= j < |Requirements(x, n)| && Requirements(x, n)[j] == r;
      var e :| e in Of(E, n) && Applies(y, r, e) == Some(true);
      assert Applies(x, r, e) == Some(true);
    }
  }

  lemma SolutionReordered(x: Inputs, y: Inputs, roots: seq<string>, other: seq<string>, E: Extras)
    requires SameDeclarations(x, y) && (forall r :: r in roots <==> r in other) && Solution(x, roots, E)
    ensures Solution(y, other, E)
  {
    hide Closed;
    forall n | n in E ensures Closed(y, E, n) {
      ClosedReordered(x, y, E, n);
    }
  }

  /** The same versions of the same distributions, and the same pins. */
  ghost predicate SameLocks(x: Inputs, y: Inputs) {
    && x.pins == y.pins && x.metadata.Keys == y.metadata.Keys
    && forall n | n in x.metadata :: x.metadata[n].version == y.metadata[n].version
  }

  lemma EdgesReordered(x: Inputs, y: Inputs, E: Extras, n: string)
    requires SameDeclarations(x, y)
    ensures Edges(x, E, n) <= Edges(y, E, n)
  {
    hide Requirements, MarkerApplies;
    forall m | m in Edges(x, E, n) ensures m in Edges(y, E, n) {
      var i :| 0 <= i < |Requirements(x, n)| && Enabled(x, Requirements(x, n)[i], Of(E, n))
               && Requirements(x, n)[i].name == m;
      var r := Requirements(x, n)[i];
      assert r in Requirements(x, n);
      var j :| 0 <= j < |Requirements(y, n)| && Requirements(y, n)[j] == r;
      var e :| e in Of(E, n) && Applies(x, r, e) == Some(true);
      assert Applies(y, r, e) == Some(true);
    }
  }

  lemma DecidedReordered(x: Inputs, y: Inputs, E: Extras)
    requires SameDeclarations(x, y) && Decided(x, E)
    ensures Decided(y, E)
  {
    hide Requirements, MarkerApplies;
    forall n, j, e | n in E && 0 <= j < |Requirements(y, n)| && e in E[n]
      ensures Applies(y, Requirements(y, n)[j], e).Some?
    {
      var r := Requirements(y, n)[j];
      assert r in Requirements(y, n);
      var i :| 0 <= i < |Requirements(x, n)| && Requirements(x, n)[i] == r;
      assert Applies(x, r, e).Some?;
    }
  }

  lemma LockedReordered(x: Inputs, y: Inputs, E: Extras)
    requires SameDeclarations(x, y) && SameLocks(x, y) && Locked(x, E)
    ensures Locked(y, E)
  {
    hide Requirements, Edges, SameDeclarations;
    SameDeclarationsBack(x, y);
    forall n | n in E ensures Edges(y, E, n) <= Edges(x, E, n) {
      EdgesReordered(y, x, E, n);
    }
  }

  lemma AdmitsReordered(x: Inputs, y: Inputs, roots: seq<string>, other: seq<string>, E: Extras)
    requires SameDeclarations(x, y) && SameLocks(x, y)
    requires (forall r :: r in roots <==> r in other) && |roots| == |other|
    requires Admits(x, roots, E)
    ensures Admits(y, other, E)
  {
    hide SameDeclarations, SameLocks, Solution, Locked, Decided;
    SolutionReordered(x, y, roots, other, E);
    LockedReordered(x, y, E);
    DecidedReordered(x, y, E);
  }

  /**
   * The result depends on which roots and requirements there are, not on their
   * order: the closure, every edge of the returned graph, and whether the closure
   * is one that the loop must accept.
   */
  lemma OrderIrrelevant(x: Inputs, y: Inputs, roots: seq<string>, other: seq<string>, E: Extras, F: Extras)
    requires SameDeclarations(x, y) && forall r :: r in roots <==> r in other
    requires Least(x, roots, E) && Least(y, other, F)
    ensures E == F && forall n | n in E :: Edges(x, E, n) == Edges(y, F, n)
    ensures SameLocks(x, y) ==> (Locked(x, E) <==> Locked(y, F))
    ensures SameLocks(x, y) && |roots| == |other| ==> (Admits(x, roots, E) <==> Admits(y, other, F))
  {
    hide Solution, SameDeclarations, SameLocks, Locked, Admits, Edges;
    SameDeclarationsBack(x, y);
    SolutionReordered(x, y, roots, other, E);
    SolutionReordered(y, x, other, roots, F);
    assert Below(F, E) && Below(E, F);
    assert E.Keys == F.Keys;
    assert forall n | n in E :: E[n] == F[n];
    assert E == F;
    forall n | n in E ensures Edges(x, E, n) == Edges(y, F, n) {
      EdgesReordered(x, y, E, n);
      EdgesReordered(y, x, E, n);
    }
    if SameLocks(x, y) {
      LocksReordered(x, y, roots, other, E);
    }
  }

  lemma LocksReordered(x: Inputs, y: Inputs, roots: seq<string>, other: seq<string>, E: Extras)
    requires SameDeclarations(x, y) && SameLocks(x, y) && forall r :: r in roots <==> r in other
    ensures Locked(x, E) <==> Locked(y, E)
    ensures |roots| == |other| ==> (Admits(x, roots, E) <==> Admits(y, other, E))
  {
    hide SameDeclarations, Locked, Admits;
    SameDeclarationsBack(x, y);
    if Locked(x, E) { LockedReordered(x, y, E); }
    if Locked(y, E) { LockedReordered(y, x, E); }
    if |roots| == |other| {
      if Admits(x, roots, E) { AdmitsReordered(x, y, roots, other, E); }
      if Admits(y, other, E) { AdmitsReordered(y, x, other, roots, E); }
    }
  }

  lemma SameDeclarationsBack(x: Inputs, y: Inputs)
    requires SameDeclarations(x, y)
    ensures SameDeclarations(y, x)
  {
  }
}
