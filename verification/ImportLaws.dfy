/**
 * Where a module name leads and what its imports add, case by case
 * (tools/g6_06_full_offline.py, lines 78 to 135).
 */
module ImportLaws {
  import opened Prelude
  import opened ImportClosure

  /** A name below one of three roots is a file of that path, or a package; those of mos_eisley are below src. */
  lemma ResolveExactly(files: Files, name: Name)
    ensures var base := if name != [] && name[0] == "mos_eisley" then ["src"] + name else name;
            var local := name != [] && (name[0] == "mos_eisley" || name[0] == "tests" || name[0] == "tools");
            && (Resolve(files, name) == Some(Plain(base)) <==> local && Plain(base) in files)
            && (Resolve(files, name) == Some(Package(base)) <==>
                  local && Plain(base) !in files && Package(base) in files)
            && (Resolve(files, name).None? <==> !local || (Plain(base) !in files && Package(base) !in files))
  {
    assert name != [] ==> [] + name == name;
  }

  /** The ancestors of a name are its proper beginnings. */
  lemma AncestorsExactly(name: Name, m: Name)
    ensures m in Ancestors(name) <==> m != [] && m < name
  {
    if m != [] && m < name {
      assert name[..|m|] == m;
    }
  }

  /** An absolute import names its module. */
  lemma AbsoluteExactly(package: Name, base: Name)
    ensures ResolveFrom(package, 0, base) == Some(base)
  {
  }

  /** One point is the package itself, each further point one package up; more points than packages is an error. */
  lemma RelativeExactly(kept: Name, dropped: Name, base: Name, level: nat)
    requires level > 0
    ensures kept != [] && level == |dropped| + 1 ==> ResolveFrom(kept + dropped, level, base) == Some(kept + base)
    ensures |kept| < level ==> ResolveFrom(kept, level, base).None?
  {
    if level == |dropped| + 1 {
      assert (kept + dropped)[..|kept|] == kept;
    }
  }

  lemma {:induction false} MembersExactly(base: Name, names: seq<string>, c: Name)
    ensures c in Members(base, names) <==> exists n :: n in names && n != "*" && c == base + [n]
    decreases |names|
  {
    if names != [] {
      MembersExactly(base, names[1..], c);
      assert names == [names[0]] + names[1..];
    }
  }

  /**
   * What one statement names: the modules of an import; the base of a from-import,
   * and each of its names but the star below it, unless the base is empty.
   */
  lemma CandidatesExactly(package: Name, s: Statement, c: Name)
    ensures s.Import? ==> Candidates(package, s) == Some(s.names)
    ensures s.From? ==>
              var resolved := ResolveFrom(package, s.level, s.base);
              && (Candidates(package, s).None? <==> resolved.None?)
              && (resolved.Some? ==>
                    (c in Candidates(package, s).value <==>
                       resolved.value != []
                       && (c == resolved.value || exists n :: n in s.members && n != "*" && c == resolved.value + [n])))
  {
    if s.From? && ResolveFrom(package, s.level, s.base).Some? {
      var resolved := ResolveFrom(package, s.level, s.base).value;
      MembersExactly(resolved, s.members, c);
      assert c in [resolved] + Members(resolved, s.members) <==> c == resolved || c in Members(resolved, s.members);
    }
  }

  /** A file fails if one of its statements does; else it names what its statements name. */
  lemma {:induction false} ImportsExactly(package: Name, source: Source, c: Name)
    ensures Imports(package, source).None? <==> exists s :: s in source && Candidates(package, s).None?
    ensures Imports(package, source).Some? ==>
              (c in Imports(package, source).value
               <==> exists s :: s in source && Candidates(package, s).Some? && c in Candidates(package, s).value)
    decreases |source|
  {
    hide Candidates;
    if source != [] {
      var init, last := source[..|source| - 1], source[|source| - 1];
      ImportsExactly(package, init, c);
      assert source == init + [last];
      assert forall s :: s in source <==> s in init || s == last;
    }
  }

  /** Relative imports count from the package: the module itself for an __init__ file, else what stands above it. */
  lemma PackageExactly(parent: Name, last: string, base: Name)
    ensures PackageOf(parent + [last], Package(base)) == parent + [last]
    ensures base != [] && base[|base| - 1] == "__init__" ==> PackageOf(parent + [last], Plain(base)) == parent + [last]
    ensures base != [] && base[|base| - 1] != "__init__" ==> PackageOf(parent + [last], Plain(base)) == parent
  {
    assert (parent + [last])[..|parent|] == parent;
  }

  /** What visiting a name adds: its ancestors and its local imports. */
  lemma AddsExactly(files: Files, name: Name, m: Name)
    ensures m in Adds(files, name) <==>
              && Resolve(files, name).Some?
              && ((m != [] && m < name)
                  || (ImportsOf(files, name).Some? && m in ImportsOf(files, name).value && Resolve(files, m).Some?))
  {
    hide Resolve, ImportsOf, Ancestors;
    AncestorsExactly(name, m);
  }

  /** What stops the discovery: no file, a file of one of four protected names, an import that leaves its package. */
  lemma BadExactly(files: Files, name: Name)
    ensures Bad(files, name) <==>
              match Resolve(files, name)
              case None => name != ["tests"] && name != ["tools"]
              case Some(Plain(base)) =>
                || (base != [] && base[|base| - 1] in {"sampling_registry", "custodian_mapping", "label_store",
                                                       "outcome_store"})
                || ImportsOf(files, name).None?
              case Some(Package(_)) => ImportsOf(files, name).None?
  {
    hide Resolve, ImportsOf;
    assert |"__init__"| == 8 && |"sampling_registry"| == 17 && |"custodian_mapping"| == 17;
    assert |"label_store"| == 11 && |"outcome_store"| == 13;
  }
}
