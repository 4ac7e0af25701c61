/**
 * The dependency closure by walks (tools/release_sbom.py, lines 109 to 146): what
 * a release takes in, along which requirements, and when it is locked, said
 * without a fixed point.
 */
module GraphLaws {
  import opened Prelude
  import opened AppVersion
  import opened SbomMarkers
  import opened SbomGraph

  /** A distribution and one extra it is asked for; the empty one is the bare name. */
  datatype Asking = Asking(name: string, extra: string)

  /** A requirement that holds for the one asks for the other: by its bare name, or with an extra it lists. */
  ghost predicate Leads(x: Inputs, a: Asking, b: Asking) {
    && a.name in x.metadata
    && exists r | r in x.metadata[a.name].requirements ::
         && MarkerApplies(r.marker, EnvironmentOf(x.platform, a.extra), x.digits) == Some(true)
         && r.name == b.name && (b.extra == "" || b.extra in r.extras)
  }

  ghost predicate Walk(x: Inputs, roots: seq<string>, walk: seq<Asking>) {
    && walk != [] && walk[0].name in roots && walk[0].extra == ""
    && forall k | 0 < k < |walk| :: Leads(x, walk[k - 1], walk[k])
  }

  ghost predicate Reached(x: Inputs, roots: seq<string>, a: Asking) {
    exists walk :: Walk(x, roots, walk) && walk[|walk| - 1] == a
  }

  ghost predicate Holds(E: Extras, a: Asking) {
    a.name in E && a.extra in E[a.name]
  }

  lemma FirstReached(x: Inputs, roots: seq<string>, root: string)
    requires root in roots
    ensures Reached(x, roots, Asking(root, ""))
  {
    assert Walk(x, roots, [Asking(root, "")]);
  }

  lemma NextReached(x: Inputs, roots: seq<string>, a: Asking, b: Asking)
    requires Reached(x, roots, a) && Leads(x, a, b)
    ensures Reached(x, roots, b)
  {
    hide Leads;
    var walk :| Walk(x, roots, walk) && walk[|walk| - 1] == a;
    var longer := walk + [b];
    assert forall k | 0 < k < |longer| :: Leads(x, longer[k - 1], longer[k]);
    assert Walk(x, roots, longer) && longer[|longer| - 1] == b;
  }

  lemma LeadsHeld(x: Inputs, E: Extras, a: Asking, b: Asking)
    requires Holds(E, a) && Closed(x, E, a.name) && Leads(x, a, b)
    ensures Holds(E, b)
  {
    var r :| r in x.metadata[a.name].requirements
             && MarkerApplies(r.marker, EnvironmentOf(x.platform, a.extra), x.digits) == Some(true)
             && r.name == b.name && (b.extra == "" || b.extra in r.extras);
    var i :| 0 <= i < |Requirements(x, a.name)| && Requirements(x, a.name)[i] == r;
    assert Applies(x, r, a.extra) == Some(true);
    assert Enabled(x, Requirements(x, a.name)[i], Of(E, a.name));
    assert b.extra in Selected(r);
  }

  /** Every solution holds whatever is reached. */
  lemma {:induction false} WalkHeld(x: Inputs, roots: seq<string>, E: Extras, walk: seq<Asking>)
    requires Solution(x, roots, E) && Walk(x, roots, walk)
    ensures Holds(E, walk[|walk| - 1])
    decreases |walk|
  {
    hide Leads, Closed;
    if |walk| > 1 {
      var init := walk[..|walk| - 1];
      assert forall k | 0 < k < |init| :: Leads(x, init[k - 1], init[k]);
      WalkHeld(x, roots, E, init);
      LeadsHeld(x, E, init[|init| - 1], walk[|walk| - 1]);
    }
  }

  lemma ReachedHeld(x: Inputs, roots: seq<string>, E: Extras, a: Asking)
    requires Solution(x, roots, E) && Reached(x, roots, a)
    ensures Holds(E, a)
  {
    var walk :| Walk(x, roots, walk) && walk[|walk| - 1] == a;
    WalkHeld(x, roots, E, walk);
  }

  /** The reached part of E. */
  ghost function Part(x: Inputs, roots: seq<string>, E: Extras): Extras {
    map n | n in E && (exists e | e in E[n] :: Reached(x, roots, Asking(n, e)))
        :: set e | e in E[n] && Reached(x, roots, Asking(n, e))
  }

  lemma PartHolds(x: Inputs, roots: seq<string>, E: Extras, a: Asking)
    ensures Holds(Part(x, roots, E), a) <==> Holds(E, a) && Reached(x, roots, a)
    ensures a.name in Part(x, roots, E) ==>
              a.name in E && exists e | e in E[a.name] :: Reached(x, roots, Asking(a.name, e))
  {
    hide Reached;
    assert a == Asking(a.name, a.extra);
  }

  lemma LeadsOn(x: Inputs, n: string, i: nat, e: string, b: string)
    requires i < |Requirements(x, n)| && Applies(x, Requirements(x, n)[i], e) == Some(true)
    requires b in Selected(Requirements(x, n)[i])
    ensures Leads(x, Asking(n, e), Asking(Requirements(x, n)[i].name, b))
  {
    assert Requirements(x, n)[i] in x.metadata[n].requirements;
  }

  lemma PartFollows(x: Inputs, roots: seq<string>, E: Extras, n: string, i: nat, e: string)
    requires Closed(x, E, n) && i < |Requirements(x, n)|
    requires Holds(Part(x, roots, E), Asking(n, e)) && Applies(x, Requirements(x, n)[i], e) == Some(true)
    ensures var r, P := Requirements(x, n)[i], Part(x, roots, E);
            r.name in P && Selected(r) <= P[r.name]
  {
    hide Reached, Part, Leads, Applies, Selected;
    var r, P := Requirements(x, n)[i], Part(x, roots, E);
    PartHolds(x, roots, E, Asking(n, e));
    assert Enabled(x, r, Of(E, n));
    assert "" in Selected(r) by { BareSelected(r); }
    forall b | b in Selected(r) ensures Holds(P, Asking(r.name, b)) {
      LeadsOn(x, n, i, e, b);
      NextReached(x, roots, Asking(n, e), Asking(r.name, b));
      PartHolds(x, roots, E, Asking(r.name, b));
    }
    assert Holds(P, Asking(r.name, ""));
    forall b | b in Selected(r) ensures b in P[r.name] {
      assert Holds(P, Asking(r.name, b));
    }
  }

  lemma BareSelected(r: Requirement)
    ensures "" in Selected(r)
  {
  }

  lemma PartClosed(x: Inputs, roots: seq<string>, E: Extras, n: string)
    requires Closed(x, E, n)
    ensures Closed(x, Part(x, roots, E), n)
  {
    hide Reached, Part, Applies, Selected;
    var P := Part(x, roots, E);
    forall i | 0 <= i < |Requirements(x, n)| && Enabled(x, Requirements(x, n)[i], Of(P, n))
      ensures Requirements(x, n)[i].name in P
      ensures Selected(Requirements(x, n)[i]) <= Of(P, Requirements(x, n)[i].name)
    {
      var e :| e in Of(P, n) && Applies(x, Requirements(x, n)[i], e) == Some(true);
      assert Holds(P, Asking(n, e));
      PartFollows(x, roots, E, n, i, e);
    }
  }

  lemma PartSolves(x: Inputs, roots: seq<string>, E: Extras)
    requires Solution(x, roots, E)
    ensures Solution(x, roots, Part(x, roots, E))
  {
    hide Reached, Part, Closed;
    var P := Part(x, roots, E);
    forall r | r in roots ensures r in P && "" in P[r] {
      FirstReached(x, roots, r);
      PartHolds(x, roots, E, Asking(r, ""));
    }
    forall n | n in P ensures Closed(x, P, n) {
      PartHolds(x, roots, E, Asking(n, ""));
      PartClosed(x, roots, E, n);
    }
  }

  /** The closure holds exactly what walks from the roots reach: each name, and each extra it is asked for. */
  lemma ReachedExactly(x: Inputs, roots: seq<string>, E: Extras)
    requires Least(x, roots, E)
    ensures forall n, e :: (n in E && e in E[n]) <==> Reached(x, roots, Asking(n, e))
    ensures forall n :: n in E <==> exists e :: Reached(x, roots, Asking(n, e))
  {
    hide Part, Closed, Leads, Reached;
    PartSolves(x, roots, E);
    var P := Part(x, roots, E);
    assert SbomGraph.Below(E, P);
    forall n, e ensures (n in E && e in E[n]) <==> Reached(x, roots, Asking(n, e)) {
      PartHolds(x, roots, E, Asking(n, e));
      if Reached(x, roots, Asking(n, e)) {
        ReachedHeld(x, roots, E, Asking(n, e));
      }
    }
    forall n | n in E ensures exists e :: Reached(x, roots, Asking(n, e)) {
      PartHolds(x, roots, E, Asking(n, ""));
    }
  }

  /** The edges of the graph are the steps of those walks. */
  lemma EdgesExactly(x: Inputs, roots: seq<string>, E: Extras, n: string, m: string)
    requires Least(x, roots, E)
    ensures m in Edges(x, E, n)
            <==> exists e :: Reached(x, roots, Asking(n, e)) && Leads(x, Asking(n, e), Asking(m, ""))
  {
    hide Reached, Least, Leads, Applies;
    ReachedExactly(x, roots, E);
    if m in Edges(x, E, n) {
      var i :| 0 <= i < |Requirements(x, n)| && Enabled(x, Requirements(x, n)[i], Of(E, n))
               && Requirements(x, n)[i].name == m;
      var e :| e in Of(E, n) && Applies(x, Requirements(x, n)[i], e) == Some(true);
      BareSelected(Requirements(x, n)[i]);
      LeadsOn(x, n, i, e, "");
      assert Reached(x, roots, Asking(n, e)) && Leads(x, Asking(n, e), Asking(m, ""));
    }
    if e :| Reached(x, roots, Asking(n, e)) && Leads(x, Asking(n, e), Asking(m, "")) {
      var i := LeadingRequirement(x, Asking(n, e), Asking(m, ""));
      assert Enabled(x, Requirements(x, n)[i], Of(E, n));
    }
  }

  lemma LeadingRequirement(x: Inputs, a: Asking, b: Asking) returns (i: nat)
    requires Leads(x, a, b)
    ensures i < |Requirements(x, a.name)| && Applies(x, Requirements(x, a.name)[i], a.extra) == Some(true)
    ensures Requirements(x, a.name)[i].name == b.name
  {
    var r :| r in x.metadata[a.name].requirements
             && MarkerApplies(r.marker, EnvironmentOf(x.platform, a.extra), x.digits) == Some(true)
             && r.name == b.name && (b.extra == "" || b.extra in r.extras);
    i :| 0 <= i < |Requirements(x, a.name)| && Requirements(x, a.name)[i] == r;
  }

  /**
   * A closure is locked exactly if everything reached is in the archive, in its
   * pinned version unless it is the application, is asked for with at most 128
   * extras, and leads to pinned names only.
   */
  lemma LockedExactly(x: Inputs, roots: seq<string>, E: Extras)
    requires Least(x, roots, E)
    ensures Locked(x, E) <==>
              forall n, e | Reached(x, roots, Asking(n, e)) ::
                && n in x.metadata
                && (n == "mos-eisley" || (n in x.pins && x.pins[n] == x.metadata[n].version))
                && n in E && |E[n]| <= 128
                && forall m | Leads(x, Asking(n, e), Asking(m, "")) :: m in x.pins
  {
    hide Reached, Least, Leads, Edges;
    ReachedExactly(x, roots, E);
    if Locked(x, E) {
      forall n, e, m | Reached(x, roots, Asking(n, e)) && Leads(x, Asking(n, e), Asking(m, "")) ensures m in x.pins {
        EdgesExactly(x, roots, E, n, m);
      }
    }
    forall n, m | n in E && m in Edges(x, E, n)
      ensures exists e :: Reached(x, roots, Asking(n, e)) && Leads(x, Asking(n, e), Asking(m, "")) {
      EdgesExactly(x, roots, E, n, m);
    }
  }

  /** The application and one distribution that it requires under a marker. */
  function OneRequirement(name: string, marker: Marker, platform: Platform, u: Numerals): Inputs {
    Inputs(map["mos-eisley" := Distribution("1", [Requirement(name, {}, marker)]), name := Distribution("2", [])],
           map[name := "2"], platform, u)
  }

  lemma OneRequired(name: string, marker: Marker, platform: Platform, u: Numerals)
    requires name != "mos-eisley"
    ensures var x := OneRequirement(name, marker, platform, u);
            Requirements(x, "mos-eisley") == [Requirement(name, {}, marker)] && Requirements(x, name) == []
  {
  }

  lemma PairsOfBare(E: Extras)
    requires forall n | n in E :: E[n] == {""}
    ensures Pairs(E) == set n | n in E :: (n, "")
  {
  }

  lemma TakenIn(name: string, marker: Marker, platform: Platform, u: Numerals)
    requires name != "mos-eisley" && MarkerApplies(marker, EnvironmentOf(platform, ""), u) == Some(true)
    ensures Admits(OneRequirement(name, marker, platform, u), ["mos-eisley"],
                   map["mos-eisley" := {""}, name := {""}])
  {
    hide MarkerApplies, EnvironmentOf, Requirements, Pairs;
    OneRequired(name, marker, platform, u);
    var both: Extras := map["mos-eisley" := {""}, name := {""}];
    PairsOfBare(both);
    assert Pairs(both) == {("mos-eisley", ""), (name, "")};
  }

  lemma LeftOut(name: string, marker: Marker, platform: Platform, u: Numerals)
    requires name != "mos-eisley" && MarkerApplies(marker, EnvironmentOf(platform, ""), u) == Some(false)
    ensures Admits(OneRequirement(name, marker, platform, u), ["mos-eisley"], map["mos-eisley" := {""}])
  {
    hide MarkerApplies, EnvironmentOf, Requirements, Pairs;
    OneRequired(name, marker, platform, u);
    var one: Extras := map["mos-eisley" := {""}];
    PairsOfBare(one);
    assert Pairs(one) == {("mos-eisley", "")};
  }

  /** It is taken in exactly if the marker holds, and nothing is admitted if the marker fails. */
  lemma OneRequirementDecides(name: string, marker: Marker, platform: Platform, u: Numerals)
    requires name != "mos-eisley"
    ensures var x := OneRequirement(name, marker, platform, u);
            var applies := MarkerApplies(marker, EnvironmentOf(platform, ""), u);
            && (applies == Some(true) ==> Admits(x, ["mos-eisley"], map["mos-eisley" := {""}, name := {""}]))
            && (applies == Some(false) ==> Admits(x, ["mos-eisley"], map["mos-eisley" := {""}]))
            && (applies == None ==> forall F :: !Admits(x, ["mos-eisley"], F))
  {
    hide MarkerApplies, EnvironmentOf, Admits, Requirements;
    var x, applies := OneRequirement(name, marker, platform, u), MarkerApplies(marker, EnvironmentOf(platform, ""), u);
    OneRequired(name, marker, platform, u);
    if applies.None? {
      assert Applies(x, Requirements(x, "mos-eisley")[0], "") == applies;
      forall F: Extras ensures !Admits(x, ["mos-eisley"], F) {
        RootDecided(x, "mos-eisley", 0, F);
      }
    } else if applies.value {
      TakenIn(name, marker, platform, u);
    } else {
      LeftOut(name, marker, platform, u);
    }
  }

  lemma RootDecided(x: Inputs, root: string, i: nat, F: Extras)
    requires i < |Requirements(x, root)|
    ensures Admits(x, [root], F) ==> Applies(x, Requirements(x, root)[i], "").Some?
  {
    hide Applies, Closed, Locked, Pairs;
    assert root in [root];
  }
}
