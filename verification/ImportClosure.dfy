/**
 * The local modules that static imports reach (tools/g6_06_full_offline.py, lines
 * 78 to 136): a stack of names, each bound to the file that defines it.
 */
module ImportClosure {
  import opened Prelude

  /** A dotted module name, by its parts. */
  type Name = seq<string>

  datatype Statement = Import(names: seq<Name>) | From(level: nat, base: Name, members: seq<string>)

  /** A module is base.py or base/__init__.py. */
  datatype Location = Plain(base: Name) | Package(base: Name)

  type Source = seq<Statement>

  type Files = map<Location, Source>

  const LOCAL_ROOTS := {"mos_eisley", "tests", "tools"}
  const PROTECTED := {"sampling_registry", "custodian_mapping", "label_store", "outcome_store"}
  const EXEMPT: set<Name> := {["tests"], ["tools"]}

  // -------------------------------------------------------------------------
  // Files
  // -------------------------------------------------------------------------

  function BaseOf(name: Name): Name
    requires name != []
  {
    (if name[0] == "mos_eisley" then ["src"] else []) + name
  }

  /** _local_module_path (lines 78 to 86). */
  function Resolve(files: Files, name: Name): Option<Location> {
    if name == [] || name[0] !in LOCAL_ROOTS then None
    else if Plain(BaseOf(name)) in files then Some(Plain(BaseOf(name)))
    else if Package(BaseOf(name)) in files then Some(Package(BaseOf(name)))
    else None
  }

  /** The file name without its suffix. */
  function Stem(location: Location): string {
    if location.Package? then "__init__" else if location.base == [] then "" else location.base[|location.base| - 1]
  }

  function Ancestors(name: Name): set<Name> {
    set depth | 1 <= depth < |name| :: name[..depth]
  }

  /** The package that relative imports in the file count from. */
  function PackageOf(name: Name, location: Location): Name
    requires name != []
  {
    if Stem(location) == "__init__" then name else name[..|name| - 1]
  }

  /** importlib.util.resolve_name: None when the import leaves the top-level package. */
  function ResolveFrom(package: Name, level: nat, base: Name): Option<Name> {
    if level == 0 then Some(base)
    else if |package| < level then None
    else Some(package[..|package| - (level - 1)] + base)
  }

  function Candidates(package: Name, s: Statement): Option<seq<Name>> {
    match s
    case Import(names) => Some(names)
    case From(level, base, members) =>
      var resolved :- ResolveFrom(package, level, base);
      if resolved == [] then Some([])
      else Some([resolved] + Members(resolved, members))
  }

  function Members(base: Name, names: seq<string>): seq<Name> {
    if names == [] then []
    else (if names[0] == "*" then [] else [base + [names[0]]]) + Members(base, names[1..])
  }

  /** The candidates of a whole file. */
  function Imports(package: Name, source: Source): Option<seq<Name>> {
    if source == [] then Some([])
    else
      var before :- Imports(package, source[..|source| - 1]);
      var last :- Candidates(package, source[|source| - 1]);
      Some(before + last)
  }

  // -------------------------------------------------------------------------
  // The closure, said without an algorithm
  // -------------------------------------------------------------------------

  function ImportsOf(files: Files, name: Name): Option<seq<Name>>
    requires Resolve(files, name).Some?
  {
    Imports(PackageOf(name, Resolve(files, name).value), files[Resolve(files, name).value])
  }

  /** The names that visiting a name adds: its ancestors, and whatever it imports that is local. */
  function Adds(files: Files, name: Name): set<Name> {
    if Resolve(files, name).None? then {}
    else
      Ancestors(name)
      + if ImportsOf(files, name).None? then {}
        else set c | c in ImportsOf(files, name).value && Resolve(files, c).Some?
  }

  /** A name that stops the discovery: no file, a protected file, or an import that leaves its package. */
  predicate Bad(files: Files, name: Name) {
    if Resolve(files, name).None? then name !in EXEMPT
    else Stem(Resolve(files, name).value) in PROTECTED || ImportsOf(files, name).None?
  }

  ghost predicate Closed(files: Files, seeds: seq<Name>, R: set<Name>) {
    && (forall n | n in seeds :: n in R)
    && (forall n | n in R :: Adds(files, n) <= R)
  }

  ghost predicate InEvery(files: Files, seeds: seq<Name>, n: Name) {
    forall R: set<Name> | Closed(files, seeds, R) :: n in R
  }

  /** R is closed, and everything in it is in every closed set. */
  ghost predicate Least(files: Files, seeds: seq<Name>, R: set<Name>) {
    Closed(files, seeds, R) && forall n | n in R :: InEvery(files, seeds, n)
  }

  function Local(files: Files, R: set<Name>): set<Name> {
    set n | n in R && Resolve(files, n).Some?
  }

  lemma AddsInEvery(files: Files, seeds: seq<Name>, n: Name, m: Name)
    requires InEvery(files, seeds, n) && m in Adds(files, n)
    ensures InEvery(files, seeds, m)
  {
    forall R: set<Name> | Closed(files, seeds, R) ensures m in R {
      assert Adds(files, n) <= R;
    }
  }

  function NameAt(base: Name): Name {
    if base != [] && base[0] == "src" then base[1..] else base
  }

  /** The names some file could define: what bounds the discovery. */
  function Locals(files: Files): set<Name> {
    set l | l in files :: NameAt(l.base)
  }

  lemma ResolvedLocal(files: Files, name: Name)
    requires Resolve(files, name).Some?
    ensures name in Locals(files)
  {
    var base := BaseOf(name);
    assert NameAt(base) == name;
  }

  /** Every name that could be reached: the seeds, the names of files, and what stands above them. */
  function Universe(files: Files, seeds: seq<Name>): set<Name> {
    var names := (set n | n in seeds) + Locals(files);
    names + set n, depth | n in names && 1 <= depth < |n| :: n[..depth]
  }

  lemma UniverseClosed(files: Files, seeds: seq<Name>, n: Name, m: Name)
    requires n in Universe(files, seeds) && m in Adds(files, n)
    ensures m in Universe(files, seeds)
  {
    hide ImportsOf, Locals;
    var names := (set x | x in seeds) + Locals(files);
    if m in Ancestors(n) {
      var d :| 1 <= d < |n| && m == n[..d];
      if n !in names {
        var x, e :| x in names && 1 <= e < |x| && n == x[..e];
        assert m == x[..d];
      }
    } else {
      ResolvedLocal(files, m);
    }
  }

  /** The least closed set: the names that are in every closed set. It always exists. */
  ghost function Closure(files: Files, seeds: seq<Name>): (R: set<Name>)
    ensures Least(files, seeds, R)
  {
    var R := set n | n in Universe(files, seeds) && InEvery(files, seeds, n);
    EveryClosed(files, seeds, R);
    R
  }

  lemma EveryClosed(files: Files, seeds: seq<Name>, R: set<Name>)
    requires R == set n | n in Universe(files, seeds) && InEvery(files, seeds, n)
    ensures Closed(files, seeds, R)
  {
    hide Adds, InEvery;
    SeedsInUniverse(files, seeds);
    forall n | n in R ensures Adds(files, n) <= R {
      forall m | m in Adds(files, n) ensures m in R {
        UniverseClosed(files, seeds, n, m);
        AddsInEvery(files, seeds, n, m);
      }
    }
  }

  lemma SeedsInUniverse(files: Files, seeds: seq<Name>)
    ensures forall n | n in seeds :: n in Universe(files, seeds) && InEvery(files, seeds, n)
  {
  }

  lemma LeastUnique(files: Files, seeds: seq<Name>, R: set<Name>, Q: set<Name>)
    requires Least(files, seeds, R) && Least(files, seeds, Q)
    ensures R == Q
  {
    assert forall n | n in R :: InEvery(files, seeds, n);
    assert forall n | n in Q :: InEvery(files, seeds, n);
  }

  /** Neither the order of the seeds nor their repetition matters. */
  lemma SeedOrderIrrelevant(files: Files, seeds: seq<Name>, other: seq<Name>, R: set<Name>, Q: set<Name>)
    requires forall n :: n in seeds <==> n in other
    requires Least(files, seeds, R) && Least(files, other, Q)
    ensures R == Q
  {
    assert Closed(files, other, R) && Closed(files, seeds, Q);
    forall n | n in R ensures n in Q { assert InEvery(files, seeds, n); }
    forall n | n in Q ensures n in R { assert InEvery(files, other, n); }
  }

  /** The discovery run again on what it found finds the same. */
  lemma Idempotent(files: Files, seeds: seq<Name>, R: set<Name>, again: seq<Name>, Q: set<Name>)
    requires Least(files, seeds, R)
    requires forall n :: n in again <==> n in Local(files, R)
    requires Least(files, again, Q)
    ensures Local(files, Q) == Local(files, R)
  {
    assert Closed(files, again, R);
    forall n | n in Q ensures n in R { assert InEvery(files, again, n); }
  }

  // -------------------------------------------------------------------------
  // The stack
  // -------------------------------------------------------------------------

  /** Between two pops: everything added by what was visited is visited or waits. */
  ghost predicate Pending(files: Files, seeds: seq<Name>, pending: seq<Name>, found: set<Name>, missing: set<Name>) {
    && (forall n | n in found :: Resolve(files, n).Some? && !Bad(files, n))
    && (forall n | n in missing :: Resolve(files, n).None? && n in EXEMPT)
    && (forall n | n in seeds :: n in found || n in missing || n in pending)
    && (forall n, m | n in found && m in Adds(files, n) :: m in found || m in missing || m in pending)
    && (forall n | n in found || n in missing || n in pending :: InEvery(files, seeds, n))
  }

  lemma SeedsInEvery(files: Files, seeds: seq<Name>)
    ensures Pending(files, seeds, seeds, {}, {})
  {
    forall n | n in seeds ensures InEvery(files, seeds, n) {
    }
  }

  function Popped(pending: seq<Name>): seq<Name>
    requires pending != []
  {
    pending[..|pending| - 1]
  }

  lemma PopSplits(pending: seq<Name>, n: Name)
    requires pending != []
    ensures n in pending <==> n in Popped(pending) || n == pending[|pending| - 1]
  {
    assert pending == Popped(pending) + [pending[|pending| - 1]];
  }

  /** A name that was already visited, or that may be absent, only leaves the stack. */
  lemma PopKeeps(
      files: Files, seeds: seq<Name>,
      pending: seq<Name>, found: set<Name>, missing: set<Name>, more: set<Name>)
    requires pending != [] && Pending(files, seeds, pending, found, missing)
    requires var n := pending[|pending| - 1];
             if n in found then more == missing
             else Resolve(files, n).None? && n in EXEMPT && more == missing + {n}
    ensures Pending(files, seeds, Popped(pending), found, more)
  {
    hide Resolve, Bad, Adds, InEvery;
    forall n ensures n in pending <==> n in Popped(pending) || n == pending[|pending| - 1] {
      PopSplits(pending, n);
    }
  }

  /** A name that is visited adds its ancestors and imports to the stack. */
  lemma VisitKeeps(
      files: Files, seeds: seq<Name>, pending: seq<Name>, found: set<Name>, missing: set<Name>, more: seq<Name>)
    requires pending != [] && Pending(files, seeds, pending, found, missing)
    requires var n := pending[|pending| - 1];
             Resolve(files, n).Some? && !Bad(files, n) && forall m :: m in more <==> m in Adds(files, n)
    ensures Pending(files, seeds, Popped(pending) + more, found + {pending[|pending| - 1]}, missing)
  {
    hide Resolve, Bad, Adds, InEvery;
    var name := pending[|pending| - 1];
    var after := Popped(pending) + more;
    forall n ensures n in pending <==> n in Popped(pending) || n == name {
      PopSplits(pending, n);
    }
    forall n | n in more ensures InEvery(files, seeds, n) {
      AddsInEvery(files, seeds, name, n);
    }
    assert forall n :: n in after <==> n in Popped(pending) || n in more;
  }

  lemma EmptyLeast(files: Files, seeds: seq<Name>, found: set<Name>, missing: set<Name>)
    requires Pending(files, seeds, [], found, missing)
    ensures Least(files, seeds, found + missing) && Local(files, found + missing) == found
  {
    var R := found + missing;
    forall n | n in R ensures Adds(files, n) <= R {
    }
  }

  // -------------------------------------------------------------------------
  // The algorithm
  // -------------------------------------------------------------------------

  /** The ancestors, shortest first (line 115). */
  method ListAncestors(name: Name) returns (r: seq<Name>)
    requires name != []
    ensures forall m :: m in r <==> m in Ancestors(name)
  {
    r := [];
    for depth := 1 to |name|
      invariant forall m :: m in r <==> exists d :: 1 <= d < depth && d < |name| && name[..d] == m
    {
      r := r + [name[..depth]];
    }
  }

  /** The local ones among the candidates (lines 133 to 135). */
  method KeepLocal(files: Files, candidates: seq<Name>) returns (r: seq<Name>)
    ensures forall m :: m in r <==> m in candidates && Resolve(files, m).Some?
  {
    r := [];
    for i := 0 to |candidates|
      invariant forall m :: m in r <==> m in candidates[..i] && Resolve(files, m).Some?
    {
      assert candidates[..i + 1] == candidates[..i] + [candidates[i]];
      if Resolve(files, candidates[i]).Some? {
        r := r + [candidates[i]];
      }
    }
    assert candidates[..|candidates|] == candidates;
  }

  /** The loop over the statements of one file (lines 118 to 132). */
  method CollectImports(package: Name, source: Source) returns (r: Option<seq<Name>>)
    ensures r == Imports(package, source)
  {
    var candidates: seq<Name> := [];
    for i := 0 to |source|
      invariant Imports(package, source[..i]) == Some(candidates)
    {
      assert source[..i + 1][..i] == source[..i];
      var here := Candidates(package, source[i]);
      if here.None? {
        FailureStays(package, source, i + 1);
        return None;
      }
      candidates := candidates + here.value;
    }
    assert source[..|source|] == source;
    r := Some(candidates);
  }

  lemma {:induction false} FailureStays(package: Name, source: Source, i: nat)
    requires i <= |source| && Imports(package, source[..i]).None?
    ensures Imports(package, source).None?
    decreases |source|
  {
    if i < |source| {
      var init := source[..|source| - 1];
      assert init[..i] == source[..i];
      FailureStays(package, init, i);
    } else {
      assert source[..i] == source;
    }
  }

  /**
   * discover_local_source_modules. It terminates: each file is visited once. It
   * succeeds exactly when nothing bad is in the least set that holds the seeds and
   * is closed under ancestors and local imports, and returns the local names of
   * that set; otherwise it names something bad in it.
   */
  method Discover(files: Files, seeds: seq<Name>) returns (r: Result<set<Name>, Name>)
    ensures r.Ok? <==> forall n | n in Closure(files, seeds) :: !Bad(files, n)
    ensures r.Ok? ==> r.value == Local(files, Closure(files, seeds))
    ensures r.Err? ==> r.error in Closure(files, seeds) && Bad(files, r.error)
  {
    hide Resolve, Bad, Adds, InEvery, Locals, Closure;
    var pending := seeds;
    var found: set<Name> := {};
    ghost var missing: set<Name> := {};
    SeedsInEvery(files, seeds);
    while pending != []
      invariant Pending(files, seeds, pending, found, missing)
      invariant found <= Locals(files)
      decreases Locals(files) - found, |pending|
    {
      var name := pending[|pending| - 1];
      assert name in pending;
      InClosure(files, seeds, name);
      if name in found {
        PopKeeps(files, seeds, pending, found, missing, missing);
        pending := Popped(pending);
      } else if Resolve(files, name).None? {
        if name !in EXEMPT {
          MissingBad(files, name);
          return Err(name);
        }
        PopKeeps(files, seeds, pending, found, missing, missing + {name});
        pending, missing := Popped(pending), missing + {name};
      } else {
        var more := VisitModule(files, name);
        if more.None? {
          return Err(name);
        }
        ResolvedLocal(files, name);
        VisitKeeps(files, seeds, pending, found, missing, more.value);
        pending, found := Popped(pending) + more.value, found + {name};
      }
    }
    EmptyLeast(files, seeds, found, missing);
    LeastUnique(files, seeds, found + missing, Closure(files, seeds));
    NoneBad(files, seeds, found, missing);
    r := Ok(found);
  }

  lemma InClosure(files: Files, seeds: seq<Name>, n: Name)
    requires InEvery(files, seeds, n)
    ensures n in Closure(files, seeds)
  {
    hide Adds, Closure;
  }

  /** What visiting one module adds, unless it is protected or one of its imports leaves its package. */
  method VisitModule(files: Files, name: Name) returns (more: Option<seq<Name>>)
    requires Resolve(files, name).Some?
    ensures more.None? <==> Bad(files, name)
    ensures more.Some? ==> forall m :: m in more.value <==> m in Adds(files, name)
  {
    hide Imports, Ancestors, Stem;
    var location := Resolve(files, name).value;
    var candidates := CollectImports(PackageOf(name, location), files[location]);
    if Stem(location) in PROTECTED || candidates.None? {
      return None;
    }
    var above := ListAncestors(name);
    var local := KeepLocal(files, candidates.value);
    more := Some(above + local);
  }

  lemma MissingBad(files: Files, name: Name)
    requires Resolve(files, name).None? && name !in EXEMPT
    ensures Bad(files, name)
  {
  }

  lemma NoneBad(files: Files, seeds: seq<Name>, found: set<Name>, missing: set<Name>)
    requires Pending(files, seeds, [], found, missing)
    ensures forall n | n in found + missing :: !Bad(files, n)
  {
  }
}
