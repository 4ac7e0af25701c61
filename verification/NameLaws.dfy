/**
 * The names that archives may hold, said without taking them apart: extraction
 * names (src/mos_eisley/app_install.py, lines 143 to 158) and inventory names
 * (tools/sbom_archive.py, lines 50 to 63).
 */
module NameLaws {
  import opened Prelude
  import opened InstallArchive
  import BundleArchive

  /** Names of single places: not empty, not a point, and without a slash. */
  ghost predicate Plain(parts: seq<string>) {
    parts != [] && forall part | part in parts :: part != "" && part != "." && '/' !in part
  }

  lemma {:induction false} MeaningfulAll(parts: seq<string>)
    requires forall part | part in parts :: part != "" && part != "."
    ensures Meaningful(parts) == parts
    decreases |parts|
  {
    if parts != [] {
      assert parts[0] in parts && forall part | part in parts[1..] :: part in parts;
      MeaningfulAll(parts[1..]);
    }
  }

  lemma {:induction false} JoinIsJoin(parts: seq<string>)
    ensures InstallArchive.Join(parts) == JoinWith(parts, '/')
    decreases |parts|
  {
    if |parts| > 1 {
      JoinIsJoin(parts[1..]);
    }
  }

  /** The parts of a joined name are what was joined. */
  lemma PartsOfJoined(parts: seq<string>)
    requires Plain(parts)
    ensures InstallArchive.Parts(JoinWith(parts, '/')) == parts
  {
    hide SplitOn, JoinWith;
    forall i | 0 <= i < |parts| ensures '/' !in parts[i] { assert parts[i] in parts; }
    JoinSplits(parts, '/');
    MeaningfulAll(parts);
  }

  lemma PartsPlain(name: string)
    ensures InstallArchive.Parts(name) != [] ==> Plain(InstallArchive.Parts(name))
  {
    hide Meaningful;
    forall part | part in InstallArchive.Parts(name) ensures '/' !in part {
      assert part in SplitOn(name, '/');
    }
  }

  lemma JoinedRelative(parts: seq<string>)
    requires Plain(parts)
    ensures JoinWith(parts, '/') != "" && !("/" <= JoinWith(parts, '/'))
  {
    assert parts[0] in parts;
    assert parts[0][0] in parts[0];
    assert JoinWith(parts, '/')[0] == parts[0][0];
  }

  predicate Printable(c: char) {
    c as int >= 32 && c as int != 127 && c != '\\'
  }

  /** An inventory name is plain parts joined by slashes, none of them two points, in printable characters. */
  lemma SafeNameExactly(name: string, encoded: nat)
    ensures BundleArchive.SafeName(name, encoded) <==>
              && encoded <= 4096
              && (forall c | c in name :: Printable(c))
              && exists parts: seq<string> :: Plain(parts) && ".." !in parts && JoinWith(parts, '/') == name
  {
    hide InstallArchive.Parts, InstallArchive.Join, JoinWith;
    var own := InstallArchive.Parts(name);
    PartsPlain(name);
    JoinIsJoin(own);
    if parts: seq<string> :| Plain(parts) && ".." !in parts && JoinWith(parts, '/') == name {
      PartsOfJoined(parts);
      JoinedRelative(parts);
    }
  }

  function Slashes(n: nat): string {
    if n == 0 then "" else Slashes(n - 1) + "/"
  }

  lemma {:induction false} SplitEnds(s: string)
    ensures SplitOn(s + "/", '/') == SplitOn(s, '/') + [""]
    decreases |s|
  {
    if s == "" {
      assert s + "/" == "/" && "/"[1..] == "";
    } else {
      assert (s + "/")[1..] == s[1..] + "/";
      SplitEnds(s[1..]);
      var rest := SplitOn(s[1..], '/');
      assert (rest + [""])[0] == rest[0] && (rest + [""])[1..] == rest[1..] + [""];
      if s[0] == '/' {
        assert [""] + (rest + [""]) == ([""] + rest) + [""];
      } else {
        assert [[s[0]] + rest[0]] + (rest[1..] + [""]) == ([[s[0]] + rest[0]] + rest[1..]) + [""];
      }
    }
  }

  lemma {:induction false} MeaningfulEnds(parts: seq<string>)
    ensures Meaningful(parts + [""]) == Meaningful(parts)
    decreases |parts|
  {
    if parts == [] {
      assert parts + [""] == [""] && [""][1..] == [];
    } else {
      assert (parts + [""])[1..] == parts[1..] + [""];
      MeaningfulEnds(parts[1..]);
    }
  }

  lemma {:induction false} SlashesIgnored(s: string, n: nat)
    ensures InstallArchive.Parts(s + Slashes(n)) == InstallArchive.Parts(s)
    ensures StripSlashes(s + Slashes(n)) == StripSlashes(s)
    decreases n
  {
    hide SplitOn, Meaningful;
    if n == 0 {
      assert s + "" == s;
    } else {
      var shorter := s + Slashes(n - 1);
      assert s + Slashes(n) == shorter + "/";
      SlashesIgnored(s, n - 1);
      SplitEnds(shorter);
      MeaningfulEnds(SplitOn(shorter, '/'));
      assert (shorter + "/")[..|shorter|] == shorter;
    }
  }

  lemma {:induction false} StripsSlashes(name: string) returns (n: nat)
    ensures name == StripSlashes(name) + Slashes(n)
    decreases |name|
  {
    if name != "" && name[|name| - 1] == '/' {
      var m := StripsSlashes(name[..|name| - 1]);
      n := m + 1;
      assert name == name[..|name| - 1] + "/";
      assert StripSlashes(name) + Slashes(n) == (StripSlashes(name) + Slashes(m)) + "/";
    } else {
      n := 0;
      assert name + "" == name;
    }
  }

  lemma JoinedStripped(parts: seq<string>)
    requires Plain(parts)
    ensures StripSlashes(JoinWith(parts, '/')) == JoinWith(parts, '/')
  {
    JoinedEnds(parts);
  }

  lemma {:induction false} JoinedEnds(parts: seq<string>)
    requires Plain(parts)
    ensures JoinWith(parts, '/') != "" && JoinWith(parts, '/')[|JoinWith(parts, '/')| - 1] != '/'
    decreases |parts|
  {
    if |parts| == 1 {
      assert parts[0] in parts && parts[0][|parts[0]| - 1] in parts[0];
    } else {
      assert forall part | part in parts[1..] :: part in parts;
      JoinedEnds(parts[1..]);
    }
  }

  /** The name of a member that extraction admits: plain parts joined by slashes, and slashes at the end. */
  ghost predicate Named(name: string, parts: seq<string>, n: nat) {
    Plain(parts) && ".." !in parts && name == JoinWith(parts, '/') + Slashes(n)
  }

  lemma AdmissibleExactly(m: InstallArchive.Member)
    ensures Admissible(m) <==>
              && |m.name| <= 400 && '\\' !in m.name && (m.isFile || m.isDir)
              && exists parts: seq<string>, n: nat :: Named(m.name, parts, n)
  {
    hide InstallArchive.Parts, InstallArchive.Join, JoinWith, StripSlashes, Plain;
    var own := InstallArchive.Parts(m.name);
    if Admissible(m) {
      PartsPlain(m.name);
      JoinIsJoin(own);
      var n := StripsSlashes(m.name);
      assert Named(m.name, own, n);
    }
    if parts: seq<string>, n: nat :| Named(m.name, parts, n) {
      NamedParts(m.name, parts, n);
    }
  }

  /** Where a member goes: its parts, whatever slashes end its name. */
  lemma NamedParts(name: string, parts: seq<string>, n: nat)
    requires Named(name, parts, n)
    ensures InstallArchive.Parts(name) == parts && parts != []
    ensures InstallArchive.Join(parts) == StripSlashes(name) && !("/" <= name)
  {
    hide InstallArchive.Parts, InstallArchive.Join, JoinWith, StripSlashes;
    PartsOfJoined(parts);
    SlashesIgnored(JoinWith(parts, '/'), n);
    JoinedStripped(parts);
    JoinedRelative(parts);
    JoinIsJoin(parts);
    assert name[0] == JoinWith(parts, '/')[0];
  }

  // -------------------------------------------------------------------------
  // A whole archive
  // -------------------------------------------------------------------------

  function SizesFrom(members: seq<InstallArchive.Member>): int {
    if members == [] then 0 else members[0].size + SizesFrom(members[1..])
  }

  lemma {:induction false} SizesSnoc(members: seq<InstallArchive.Member>, m: InstallArchive.Member)
    ensures SizesFrom(members + [m]) == SizesFrom(members) + m.size
    decreases |members|
  {
    if members == [] {
      assert members + [m] == [m] && [m][1..] == [];
    } else {
      assert (members + [m])[1..] == members[1..] + [m];
      SizesSnoc(members[1..], m);
    }
  }

  lemma {:induction false} TotalFrom(members: seq<InstallArchive.Member>)
    ensures Total(members) == SizesFrom(members)
    decreases |members|
  {
    if members != [] {
      TotalFrom(members[..|members| - 1]);
      SizesSnoc(members[..|members| - 1], members[|members| - 1]);
      assert members == members[..|members| - 1] + [members[|members| - 1]];
    }
  }

  /**
   * An archive is extractable exactly if it has at most thirty thousand members,
   * all admissible and of different names, whose sizes are no less than zero and
   * together at most two gigabytes, and no file is another member or above one.
   */
  lemma ExtractableExactly(members: seq<InstallArchive.Member>)
    ensures Extractable(members) <==>
              && |members| <= 30000 && SizesFrom(members) <= 2147483648
              && (forall m | m in members :: Admissible(m) && m.size >= 0)
              && (forall i, j | 0 <= i < j < |members| :: members[i].name != members[j].name)
              && forall i, j | 0 <= i < |members| && 0 <= j < |members| && i != j && !members[i].isDir ::
                   !(InstallArchive.Parts(members[i].name) <= InstallArchive.Parts(members[j].name))
  {
    hide Admissible, InstallArchive.Parts, Total, SizesFrom;
    TotalFrom(members);
  }

  /** A launcher alone, whatever it holds, is extractable within the bound of sizes. */
  lemma LauncherAlone(m: InstallArchive.Member)
    requires m.name == "mos" && m.isFile && !m.isDir && 0 <= m.size <= 2147483648
    ensures Extractable([m]) && IsLauncher(m)
  {
    hide InstallArchive.Parts, InstallArchive.Join, StripSlashes, Admissible, Extractable;
    assert Plain(["mos"]) && ".." !in ["mos"];
    assert JoinWith(["mos"], '/') + Slashes(0) == "mos" + "" == "mos";
    assert Named("mos", ["mos"], 0);
    AdmissibleExactly(m);
    NamedParts("mos", ["mos"], 0);
    ExtractableExactly([m]);
    assert [m][1..] == [];
  }
}
