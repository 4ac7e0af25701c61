/**
 * Release version texts: the numeric key of a version, the text of a key, the
 * order of releases and the choice of a preview (src/mos_eisley/app_release.py),
 * and the two spellings of a candidate (tools/sbom_metadata.py).
 *
 * The pattern of a version admits every decimal digit of Unicode after the first
 * digit of a number, so the digits beyond ASCII are a parameter of the model.
 */
module AppVersion {
  import opened Prelude

  datatype Version = Version(major: nat, minor: nat, patch: nat, rc: Option<nat>)

  /** The decimal digits beyond ASCII that the pattern engine knows, with their values. */
  type Numerals = u: map<char, nat> | forall c | c in u :: c as int >= 128 && u[c] < 10 witness map[]

  const MAX_TEXT := 50

  function DigitOf(c: char, u: Numerals): (d: Option<nat>)
    ensures d.Some? ==> d.value < 10
  {
    if '0' <= c <= '9' then Some(c as nat - '0' as nat) else if c in u then Some(u[c]) else None
  }

  predicate AllDigits(t: string, u: Numerals) {
    forall i | 0 <= i < |t| :: DigitOf(t[i], u).Some?
  }

  function ValueOf(t: string, u: Numerals): nat
    requires AllDigits(t, u)
  {
    if t == "" then 0 else 10 * ValueOf(t[..|t| - 1], u) + DigitOf(t[|t| - 1], u).value
  }

  /** A number without a leading zero; its first digit is ASCII. */
  predicate Numeral(t: string, u: Numerals) {
    && t != "" && '0' <= t[0] <= '9' && AllDigits(t, u)
    && (t[0] == '0' ==> |t| == 1)
  }

  // -------------------------------------------------------------------------
  // Reading a version
  // -------------------------------------------------------------------------

  /** The length of the run of digits at the front. */
  function Digits(s: string, u: Numerals): (n: nat)
    ensures n <= |s|
    ensures AllDigits(s[..n], u)
    ensures n < |s| ==> DigitOf(s[n], u).None?
  {
    if s == "" || DigitOf(s[0], u).None? then 0
    else
      var n := 1 + Digits(s[1..], u);
      assert forall i | 0 < i < n :: s[i] == s[1..][..n - 1][i - 1];
      n
  }

  function ReadNumber(s: string, u: Numerals): Option<(nat, string)> {
    var n := Digits(s, u);
    if Numeral(s[..n], u) then Some((ValueOf(s[..n], u), s[n..])) else None
  }

  function Skip(s: string, prefix: string): Option<string> {
    if prefix <= s then Some(s[|prefix|..]) else None
  }

  /** A number and the point after it. */
  function ReadDotted(s: string, u: Numerals): Option<(nat, string)> {
    var n :- ReadNumber(s, u);
    var rest :- Skip(n.1, ".");
    Some((n.0, rest))
  }

  /** The end of the text, or the number of a release candidate and the end. */
  function ReadEnd(s: string, u: Numerals): Option<Option<nat>> {
    if s == "" then Some(None)
    else
      var candidate :- Skip(s, "-rc.");
      var rc :- ReadNumber(candidate, u);
      if rc.1 == "" then Some(Some(rc.0)) else None
  }

  /** version_key: the pattern, the length bound, and the five numbers. */
  function VersionKey(s: string, u: Numerals): Option<Version> {
    if |s| > MAX_TEXT then None
    else
      var major :- ReadDotted(s, u);
      var minor :- ReadDotted(major.1, u);
      var patch :- ReadNumber(minor.1, u);
      var rc :- ReadEnd(patch.1, u);
      Some(Version(major.0, minor.0, patch.0, rc))
  }

  // -------------------------------------------------------------------------
  // Writing a version
  // -------------------------------------------------------------------------

  function Digit(d: nat): (c: char)
    requires d < 10
    ensures '0' <= c <= '9' && c as nat - '0' as nat == d
  {
    ('0' as nat + d) as char
  }

  function PrintNumber(n: nat): (t: string)
    ensures t != ""
  {
    if n < 10 then [Digit(n)] else PrintNumber(n / 10) + [Digit(n % 10)]
  }

  function PrintEnd(rc: Option<nat>): string {
    if rc.Some? then "-rc." + PrintNumber(rc.value) else ""
  }

  function PrintDotted(n: nat, rest: string): string {
    PrintNumber(n) + "." + rest
  }

  function Print(v: Version): string {
    PrintDotted(v.major, PrintDotted(v.minor, PrintNumber(v.patch) + PrintEnd(v.rc)))
  }

  /** Every digit replaced by the ASCII digit of the same value. */
  function Normal(s: string, u: Numerals): (t: string)
    ensures |t| == |s|
    ensures forall i | 0 <= i < |s| :: t[i] == if DigitOf(s[i], u).Some? then Digit(DigitOf(s[i], u).value) else s[i]
  {
    seq(|s|, i requires 0 <= i < |s| => if DigitOf(s[i], u).Some? then Digit(DigitOf(s[i], u).value) else s[i])
  }

  lemma {:induction false} PrintedNumeral(n: nat, u: Numerals)
    ensures Numeral(PrintNumber(n), u) && ValueOf(PrintNumber(n), u) == n
    ensures n > 0 ==> PrintNumber(n)[0] != '0'
  {
    if n >= 10 {
      PrintedNumeral(n / 10, u);
      assert PrintNumber(n)[..|PrintNumber(n)| - 1] == PrintNumber(n / 10);
    } else {
      assert PrintNumber(n)[..0] == "";
    }
  }

  /** A numeral in ASCII is the text of its value; any numeral is, once its digits are ASCII. */
  lemma {:induction false} NumeralPrinted(t: string, u: Numerals)
    requires Numeral(t, u)
    ensures Normal(t, u) == PrintNumber(ValueOf(t, u))
    ensures t[0] != '0' ==> ValueOf(t, u) > 0
    decreases |t|
  {
    hide PrintNumber;
    var init, d := t[..|t| - 1], DigitOf(t[|t| - 1], u).value;
    NormalTail(t, u);
    if |t| == 1 {
      assert init == "" && ValueOf(init, u) == 0 && Normal(init, u) == "";
      PrintDigit(d);
    } else {
      NumeralPrinted(init, u);
      PrintTail(ValueOf(init, u), d);
    }
  }

  lemma NormalTail(t: string, u: Numerals)
    requires t != "" && DigitOf(t[|t| - 1], u).Some?
    ensures Normal(t, u) == Normal(t[..|t| - 1], u) + [Digit(DigitOf(t[|t| - 1], u).value)]
  {
  }

  lemma PrintDigit(d: nat)
    requires d < 10
    ensures PrintNumber(d) == [Digit(d)]
  {
  }

  lemma PrintTail(n: nat, d: nat)
    requires n > 0 && d < 10
    ensures PrintNumber(10 * n + d) == PrintNumber(n) + [Digit(d)]
  {
  }

  /** A numeral followed by something that is no digit is read back exactly. */
  lemma {:induction false} DigitsOf(t: string, rest: string, u: Numerals)
    requires AllDigits(t, u) && (rest == "" || DigitOf(rest[0], u).None?)
    ensures Digits(t + rest, u) == |t|
    decreases |t|
  {
    if t == "" {
      assert t + rest == rest;
    } else {
      assert (t + rest)[1..] == t[1..] + rest;
      DigitsOf(t[1..], rest, u);
    }
  }

  lemma ReadBack(n: nat, rest: string, u: Numerals)
    requires rest == "" || DigitOf(rest[0], u).None?
    ensures ReadNumber(PrintNumber(n) + rest, u) == Some((n, rest))
  {
    PrintedNumeral(n, u);
    DigitsOf(PrintNumber(n), rest, u);
    var s := PrintNumber(n) + rest;
    assert s[..|PrintNumber(n)|] == PrintNumber(n) && s[|PrintNumber(n)|..] == rest;
  }

  lemma ReadNormal(s: string, u: Numerals)
    requires ReadNumber(s, u).Some?
    ensures var r := ReadNumber(s, u).value; Normal(s, u) == PrintNumber(r.0) + Normal(r.1, u)
  {
    hide PrintNumber, DigitOf, ValueOf, Digits;
    var n := Digits(s, u);
    NumeralPrinted(s[..n], u);
    NormalSplit(s, n, u);
  }

  lemma NormalSplit(s: string, n: nat, u: Numerals)
    requires n <= |s|
    ensures Normal(s, u) == Normal(s[..n], u) + Normal(s[n..], u)
  {
  }

  lemma SkipNormal(s: string, prefix: string, u: Numerals)
    requires Skip(s, prefix).Some? && prefix in {".", "-rc."}
    ensures Normal(s, u) == prefix + Normal(Skip(s, prefix).value, u)
  {
    hide DigitOf, Normal;
    assert s[..|prefix|] == prefix;
    NormalSplit(s, |prefix|, u);
    MarkNormal(prefix, u);
  }

  lemma MarkNormal(prefix: string, u: Numerals)
    requires prefix in {".", "-rc."}
    ensures Normal(prefix, u) == prefix
  {
    assert forall i | 0 <= i < |prefix| :: DigitOf(prefix[i], u).None?;
  }

  lemma DottedBack(n: nat, rest: string, u: Numerals)
    ensures ReadDotted(PrintDotted(n, rest), u) == Some((n, rest))
  {
    ReadBack(n, "." + rest, u);
    assert PrintDotted(n, rest) == PrintNumber(n) + ("." + rest);
    assert Skip("." + rest, ".") == Some(rest);
  }

  lemma EndBack(rc: Option<nat>, u: Numerals)
    ensures ReadEnd(PrintEnd(rc), u) == Some(rc)
    ensures PrintEnd(rc) == "" || DigitOf(PrintEnd(rc)[0], u).None?
  {
    if rc.Some? {
      ReadBack(rc.value, "", u);
      assert PrintNumber(rc.value) + "" == PrintNumber(rc.value);
      assert Skip(PrintEnd(rc), "-rc.") == Some(PrintNumber(rc.value));
    }
  }

  lemma DottedNormal(s: string, u: Numerals)
    requires ReadDotted(s, u).Some?
    ensures var r := ReadDotted(s, u).value; Normal(s, u) == PrintDotted(r.0, Normal(r.1, u))
  {
    ReadNormal(s, u);
    SkipNormal(ReadNumber(s, u).value.1, ".", u);
  }

  lemma EndNormal(s: string, u: Numerals)
    requires ReadEnd(s, u).Some?
    ensures Normal(s, u) == PrintEnd(ReadEnd(s, u).value)
  {
    if s != "" {
      var candidate := Skip(s, "-rc.").value;
      SkipNormal(s, "-rc.", u);
      ReadNormal(candidate, u);
      assert Normal("", u) == "";
    }
  }

  /** Parsing inverts printing. */
  lemma ParsesPrinted(v: Version, u: Numerals)
    requires |Print(v)| <= MAX_TEXT
    ensures VersionKey(Print(v), u) == Some(v)
  {
    hide ReadDotted, ReadNumber, ReadEnd, PrintDotted, PrintNumber, PrintEnd, DigitOf;
    var fromPatch := PrintNumber(v.patch) + PrintEnd(v.rc);
    DottedBack(v.major, PrintDotted(v.minor, fromPatch), u);
    DottedBack(v.minor, fromPatch, u);
    EndBack(v.rc, u);
    ReadBack(v.patch, PrintEnd(v.rc), u);
  }

  /** Printing inverts parsing, up to the digits the text was written with. */
  lemma PrintsParsed(s: string, u: Numerals)
    requires VersionKey(s, u).Some?
    ensures Print(VersionKey(s, u).value) == Normal(s, u)
  {
    hide ReadDotted, ReadNumber, ReadEnd, PrintDotted, PrintNumber, PrintEnd, DigitOf, Normal;
    var major := ReadDotted(s, u).value;
    var minor := ReadDotted(major.1, u).value;
    var patch := ReadNumber(minor.1, u).value;
    DottedNormal(s, u);
    DottedNormal(major.1, u);
    ReadNormal(minor.1, u);
    EndNormal(patch.1, u);
  }

  predicate Ascii(s: string) {
    forall c | c in s :: c as int < 128
  }

  lemma AsciiNormal(s: string, u: Numerals)
    requires Ascii(s)
    ensures Normal(s, u) == s
  {
    forall i | 0 <= i < |s| ensures Normal(s, u)[i] == s[i] {
      assert s[i] in s;
    }
  }

  /** Two accepted texts have one key exactly when they differ only in how digits are written. */
  lemma KeysEqualExactly(s: string, t: string, u: Numerals)
    requires VersionKey(s, u).Some? && VersionKey(t, u).Some?
    ensures VersionKey(s, u) == VersionKey(t, u) <==> Normal(s, u) == Normal(t, u)
    ensures Ascii(s) && Ascii(t) ==> (VersionKey(s, u) == VersionKey(t, u) <==> s == t)
  {
    PrintsParsed(s, u);
    PrintsParsed(t, u);
    if Normal(s, u) == Normal(t, u) {
      ParsesPrinted(VersionKey(s, u).value, u);
      ParsesPrinted(VersionKey(t, u).value, u);
    }
    if Ascii(s) && Ascii(t) {
      AsciiNormal(s, u);
      AsciiNormal(t, u);
    }
  }

  /** Any digit beyond ASCII gives two different accepted texts with one key. */
  lemma OtherDigitsCollide(c: char, u: Numerals)
    requires c in u
    ensures var s, t := ['1', c] + ".0.0", ['1', Digit(u[c])] + ".0.0";
            s != t && VersionKey(s, u).Some? && VersionKey(s, u) == VersionKey(t, u)
  {
    var s, t := ['1', c] + ".0.0", ['1', Digit(u[c])] + ".0.0";
    assert Normal(s, u) == t && Normal(t, u) == t;
    WideReads(c, u);
    WideReads(Digit(u[c]), u);
    KeysEqualExactly(s, t, u);
  }

  lemma WideDotted(c: char, u: Numerals)
    requires DigitOf(c, u).Some?
    ensures ReadDotted(['1', c] + ".0.0", u).Some?
    ensures ReadDotted(['1', c] + ".0.0", u).value.1 == "0.0"
  {
    var wide := ['1', c];
    DigitsOf(wide, ".0.0", u);
    assert (wide + ".0.0")[..2] == wide && (wide + ".0.0")[2..] == ".0.0";
    assert Skip(".0.0", ".") == Some("0.0");
  }

  lemma WideReads(c: char, u: Numerals)
    requires DigitOf(c, u).Some?
    ensures VersionKey(['1', c] + ".0.0", u).Some?
  {
    hide PrintNumber, PrintDotted, ReadDotted, ReadNumber;
    WideDotted(c, u);
    Zero();
    DottedBack(0, "0", u);
    ReadBack(0, "", u);
  }

  /** One text and its numbers, digit by digit. */
  lemma ReadsDigits(u: Numerals)
    ensures VersionKey("1.20.304-rc.5", u) == Some(Version(1, 20, 304, Some(5)))
    ensures VersionKey("6.7.89", u) == Some(Version(6, 7, 89, None))
  {
    hide VersionKey;
    PrintsDigits();
    ParsesPrinted(Version(1, 20, 304, Some(5)), u);
    ParsesPrinted(Version(6, 7, 89, None), u);
  }

  lemma PrintsDigits()
    ensures Print(Version(1, 20, 304, Some(5))) == "1.20.304-rc.5"
    ensures Print(Version(6, 7, 89, None)) == "6.7.89"
  {
    assert PrintNumber(1) == "1" && PrintNumber(5) == "5" && PrintNumber(6) == "6" && PrintNumber(7) == "7";
    assert PrintNumber(20) == "20" && PrintNumber(89) == "89";
    assert PrintNumber(30) == "30" && PrintNumber(304) == "304";
  }

  lemma Zero()
    ensures PrintDotted(0, "0") == "0.0" && PrintNumber(0) + "" == "0"
  {
  }

  // -------------------------------------------------------------------------
  // The order
  // -------------------------------------------------------------------------

  /** The comparison of the five-number keys; a candidate sorts before its final release. */
  predicate Before(v: Version, w: Version) {
    if v.major != w.major then v.major < w.major
    else if v.minor != w.minor then v.minor < w.minor
    else if v.patch != w.patch then v.patch < w.patch
    else v.rc.Some? && (w.rc.None? || v.rc.value < w.rc.value)
  }

  /** The tuple the source compares: a final release has 1 in the fourth place, a candidate 0. */
  function Numbers(v: Version): (t: seq<nat>)
    ensures |t| == 5
  {
    [v.major, v.minor, v.patch, if v.rc.None? then 1 else 0, if v.rc.None? then 0 else v.rc.value]
  }

  /** The numbers of v and w agree before place k, and at place k that of v is smaller. */
  ghost predicate SmallerAt(v: Version, w: Version, k: nat) {
    k < 5 && Numbers(v)[k] < Numbers(w)[k] && forall i | 0 <= i < k :: Numbers(v)[i] == Numbers(w)[i]
  }

  /** The order of versions: less at the first of the five numbers that differ. */
  lemma BeforeExactly(v: Version, w: Version)
    ensures Before(v, w) <==> exists k: nat :: SmallerAt(v, w, k)
    ensures v == w <==> Numbers(v) == Numbers(w)
  {
    var a, b := Numbers(v), Numbers(w);
    if a[0] != b[0] {
      assert SmallerAt(v, w, 0) || SmallerAt(w, v, 0);
    } else if a[1] != b[1] {
      assert SmallerAt(v, w, 1) || SmallerAt(w, v, 1);
    } else if a[2] != b[2] {
      assert SmallerAt(v, w, 2) || SmallerAt(w, v, 2);
    } else if a[3] != b[3] {
      assert SmallerAt(v, w, 3) || SmallerAt(w, v, 3);
    } else if a[4] != b[4] {
      assert SmallerAt(v, w, 4) || SmallerAt(w, v, 4);
    }
  }

  predicate AtMost(v: Version, w: Version) {
    v == w || Before(v, w)
  }

  lemma StrictTotalOrder(v: Version, w: Version, x: Version)
    ensures !Before(v, v)
    ensures v == w || Before(v, w) || Before(w, v)
    ensures Before(v, w) ==> !Before(w, v)
    ensures Before(v, w) && Before(w, x) ==> Before(v, x)
  {
  }

  /** Every candidate precedes its final release, and nothing else comes between the candidates and it. */
  lemma CandidatesPrecede(v: Version, n: nat, w: Version)
    ensures Before(v.(rc := Some(n)), v.(rc := None))
    ensures Before(v.(rc := Some(n)), w) && Before(w, v.(rc := None)) ==>
              w.rc.Some? && w.rc.value > n && w == v.(rc := w.rc)
  {
  }

  // -------------------------------------------------------------------------
  // The choice of a preview (lines 274 to 296)
  // -------------------------------------------------------------------------

  datatype Listed = Listed(draft: bool, prerelease: bool, tag: string)

  predicate Offered(e: Listed) {
    !e.draft && e.prerelease
  }

  predicate TagText(tag: string) {
    0 < |tag| <= 51 && forall c | c in tag :: c as int >= 32
  }

  /** A tag without its leading letter. */
  function VersionText(tag: string): string {
    if tag == "" then "" else tag[1..]
  }

  predicate MarkAt(tag: string, i: nat) {
    i + 4 <= |tag| && tag[i..i + 4] == "-rc."
  }

  predicate IsPreview(tag: string) {
    "v" <= tag && exists i :: 0 <= i < |tag| && MarkAt(tag, i)
  }

  /** A candidate is a published prerelease whose tag begins with v and holds the mark of a candidate. */
  lemma CandidateExactly(e: Listed)
    ensures Candidate(e) <==>
              && !e.draft && e.prerelease
              && e.tag != "" && e.tag[0] == 'v'
              && exists before: string, after: string :: Joined(e.tag, before, "-rc.", after)
  {
    if before: string, after: string :| Joined(e.tag, before, "-rc.", after) {
      assert e.tag[|before|..|before| + 4] == "-rc.";
      assert MarkAt(e.tag, |before|);
    }
    if IsPreview(e.tag) {
      var i :| 0 <= i < |e.tag| && MarkAt(e.tag, i);
      assert e.tag == e.tag[..i] + e.tag[i..i + 4] + e.tag[i + 4..];
      assert Joined(e.tag, e.tag[..i], "-rc.", e.tag[i + 4..]);
    }
  }

  ghost predicate Joined(whole: string, before: string, middle: string, after: string) {
    whole == before + middle + after
  }

  /** The tag of an offered entry can be read, or is skipped. */
  predicate Readable(e: Listed, u: Numerals) {
    Offered(e) ==> TagText(e.tag) && (IsPreview(e.tag) ==> VersionKey(VersionText(e.tag), u).Some?)
  }

  predicate Candidate(e: Listed) {
    Offered(e) && IsPreview(e.tag)
  }

  /** An inventory entry is readable unless it is offered and its tag is empty, too long, or names no version. */
  lemma ReadableExactly(e: Listed, u: Numerals)
    ensures Readable(e, u) <==>
              (!e.draft && e.prerelease ==>
                 && 1 <= |e.tag| <= 51 && (forall c | c in e.tag :: c as int >= 32)
                 && (Candidate(e) ==> VersionKey(e.tag[1..], u).Some?))
  {
    hide VersionKey, IsPreview;
  }

  /** Candidate number m of the inventory has the greatest key among the first n entries. */
  ghost predicate Greatest(inventory: seq<Listed>, m: nat, n: nat, u: Numerals) {
    && m < n <= |inventory| && Candidate(inventory[m])
    && forall k | 0 <= k < n && Candidate(inventory[k]) ::
         KeyAtMost(VersionText(inventory[k].tag), VersionText(inventory[m].tag), u)
  }

  ghost predicate KeyAtMost(s: string, t: string, u: Numerals) {
    && VersionKey(s, u).Some? && VersionKey(t, u).Some?
    && AtMost(VersionKey(s, u).value, VersionKey(t, u).value)
  }

  lemma GreatestNext(inventory: seq<Listed>, m: nat, n: nat, u: Numerals)
    requires Greatest(inventory, m, n, u) && n < |inventory| && Candidate(inventory[n])
    requires VersionKey(VersionText(inventory[n].tag), u).Some?
    ensures if Before(VersionKey(VersionText(inventory[m].tag), u).value,
                      VersionKey(VersionText(inventory[n].tag), u).value)
            then Greatest(inventory, n, n + 1, u) else Greatest(inventory, m, n + 1, u)
  {
    hide VersionKey, Candidate;
    assert KeyAtMost(VersionText(inventory[m].tag), VersionText(inventory[m].tag), u);
  }

  /** The loop over the inventory and max by key: the first greatest candidate. */
  method SelectPreview(inventory: seq<Listed>, u: Numerals) returns (r: Option<nat>)
    ensures r.Some? <==>
              && |inventory| <= 10
              && (forall k | 0 <= k < |inventory| :: Readable(inventory[k], u))
              && (exists k :: 0 <= k < |inventory| && Candidate(inventory[k]))
    ensures r.Some? ==> Greatest(inventory, r.value, |inventory|, u)
  {
    hide VersionKey, TagText, IsPreview, Before;
    if |inventory| > 10 {
      return None;
    }
    r := None;
    for i := 0 to |inventory|
      invariant forall k | 0 <= k < i :: Readable(inventory[k], u)
      invariant r.Some? ==> Greatest(inventory, r.value, i, u)
      invariant r.None? ==> forall k | 0 <= k < i :: !Candidate(inventory[k])
    {
      var e := inventory[i];
      if Offered(e) {
        if !TagText(e.tag) {
          return None;
        }
        if IsPreview(e.tag) {
          var key := VersionKey(VersionText(e.tag), u);
          if key.None? {
            return None;
          }
          if r.None? {
            r := Some(i);
          } else {
            GreatestNext(inventory, r.value, i, u);
            if Before(VersionKey(VersionText(inventory[r.value].tag), u).value, key.value) {
              r := Some(i);
            }
          }
        }
      }
    }
  }

  /** With ASCII tags the preview is the only greatest candidate, wherever it is listed. */
  lemma PreviewUnique(inventory: seq<Listed>, m: nat, n: nat, u: Numerals)
    requires Greatest(inventory, m, |inventory|, u) && Greatest(inventory, n, |inventory|, u)
    requires Ascii(inventory[m].tag) && Ascii(inventory[n].tag)
    ensures inventory[m].tag == inventory[n].tag
  {
    hide VersionKey, IsPreview;
    var a, b := VersionText(inventory[m].tag), VersionText(inventory[n].tag);
    PreviewTag(inventory[m].tag);
    PreviewTag(inventory[n].tag);
    assert KeyAtMost(a, b, u) && KeyAtMost(b, a, u);
    assert VersionKey(a, u).value == VersionKey(b, u).value by {
      StrictTotalOrder(VersionKey(a, u).value, VersionKey(b, u).value, VersionKey(a, u).value);
    }
    KeysEqualExactly(a, b, u);
  }

  lemma PreviewTag(tag: string)
    requires IsPreview(tag) && Ascii(tag)
    ensures tag == "v" + VersionText(tag) && Ascii(VersionText(tag))
  {
    assert tag == tag[..1] + tag[1..] && tag[..1] == "v";
    forall c | c in tag[1..] ensures c in tag {
      var i :| 0 <= i < |tag| - 1 && tag[1..][i] == c;
      assert tag[i + 1] == c;
    }
  }

  // -------------------------------------------------------------------------
  // The two spellings of a candidate
  // -------------------------------------------------------------------------

  /** A nonempty run of digits, leading zeros allowed, and what follows it. */
  function ReadRun(s: string, u: Numerals): Option<(string, string)> {
    var n := Digits(s, u);
    if n == 0 then None else Some((s[..n], s[n..]))
  }

  /** Three runs with points between them, and what follows. */
  function ReadCore(s: string, u: Numerals): Option<(string, string)> {
    var a :- ReadRun(s, u);
    var afterA :- Skip(a.1, ".");
    var b :- ReadRun(afterA, u);
    var afterB :- Skip(b.1, ".");
    var c :- ReadRun(afterB, u);
    Some((a.0 + "." + b.0 + "." + c.0, c.1))
  }

  /** The number after the mark, if the text is the mark and one run of digits. */
  function Marked(s: string, mark: string, u: Numerals): Option<string> {
    var rest :- Skip(s, mark);
    var n :- ReadRun(rest, u);
    if n.1 == "" then Some(n.0) else None
  }

  /** project_version: the distribution spelling (sbom_metadata.py, lines 31 to 34). */
  function ProjectVersion(s: string, u: Numerals): Option<string> {
    var core :- ReadCore(s, u);
    if core.1 == "" then Some(s)
    else if Marked(core.1, "-rc.", u).Some? then Some(core.0 + "rc" + Marked(core.1, "-rc.", u).value)
    else if Marked(core.1, "rc", u).Some? then Some(s)
    else None
  }

  /** application_version: the release spelling (lines 299 to 304). */
  function ApplicationVersion(s: string, u: Numerals): Option<string> {
    var core := ReadCore(s, u);
    var candidate := if core.Some? then Marked(core.value.1, "rc", u) else None;
    var spelled := if candidate.Some? then core.value.0 + "-rc." + candidate.value else s;
    if VersionKey(spelled, u).Some? then Some(spelled) else None
  }

  lemma RunBack(t: string, rest: string, u: Numerals)
    requires t != "" && AllDigits(t, u) && (rest == "" || DigitOf(rest[0], u).None?)
    ensures ReadRun(t + rest, u) == Some((t, rest))
  {
    DigitsOf(t, rest, u);
    assert (t + rest)[..|t|] == t && (t + rest)[|t|..] == rest;
  }

  lemma CoreBack(a: string, b: string, c: string, rest: string, u: Numerals)
    requires a != "" && b != "" && c != "" && AllDigits(a, u) && AllDigits(b, u) && AllDigits(c, u)
    requires rest == "" || DigitOf(rest[0], u).None?
    ensures ReadCore(a + "." + b + "." + c + rest, u) == Some((a + "." + b + "." + c, rest))
  {
    hide ReadRun, Digits, AllDigits, Skip;
    var fromC := c + rest;
    var fromB := b + ("." + fromC);
    assert a + "." + b + "." + c + rest == a + ("." + fromB);
    RunBack(a, "." + fromB, u);
    SkipPoint(fromB);
    RunBack(b, "." + fromC, u);
    SkipPoint(fromC);
    RunBack(c, rest, u);
  }

  lemma SkipPoint(s: string)
    ensures Skip("." + s, ".") == Some(s)
  {
    assert ("." + s)[1..] == s;
  }

  lemma MarkedBack(mark: string, n: string, u: Numerals)
    requires n != "" && AllDigits(n, u)
    ensures Marked(mark + n, mark, u) == Some(n)
  {
    RunBack(n, "", u);
    assert n + "" == n && Skip(mark + n, mark) == Some(n);
  }

  /** The pieces of an accepted release version. */
  lemma KeyPieces(s: string, u: Numerals) returns (a: string, b: string, c: string, n: string)
    requires VersionKey(s, u).Some?
    ensures a != "" && b != "" && c != "" && AllDigits(a, u) && AllDigits(b, u) && AllDigits(c, u) && AllDigits(n, u)
    ensures s == a + "." + b + "." + c + if n == "" then "" else "-rc." + n
  {
    hide ReadDotted, ReadNumber, ReadEnd, AllDigits;
    var major := ReadDotted(s, u).value.1;
    var minor := ReadDotted(major, u).value.1;
    var patch := ReadNumber(minor, u).value.1;
    a := DottedPiece(s, u);
    b := DottedPiece(major, u);
    c := NumberPiece(minor, u);
    n := EndPiece(patch, u);
  }

  lemma NumberPiece(s: string, u: Numerals) returns (t: string)
    requires ReadNumber(s, u).Some?
    ensures t != "" && AllDigits(t, u) && s == t + ReadNumber(s, u).value.1
  {
    t := s[..Digits(s, u)];
  }

  lemma DottedPiece(s: string, u: Numerals) returns (t: string)
    requires ReadDotted(s, u).Some?
    ensures t != "" && AllDigits(t, u) && s == t + "." + ReadDotted(s, u).value.1
  {
    t := NumberPiece(s, u);
    var r := ReadNumber(s, u).value.1;
    assert r == "." + Skip(r, ".").value;
  }

  lemma EndPiece(s: string, u: Numerals) returns (n: string)
    requires ReadEnd(s, u).Some?
    ensures AllDigits(n, u) && s == if n == "" then "" else "-rc." + n
  {
    n := "";
    if s != "" {
      var candidate := Skip(s, "-rc.").value;
      n := NumberPiece(candidate, u);
      assert s == "-rc." + candidate && n + "" == n;
    }
  }

  /** Every accepted release version survives the distribution spelling and back. */
  lemma SpellingsRoundTrip(s: string, u: Numerals)
    requires VersionKey(s, u).Some?
    ensures ProjectVersion(s, u).Some?
    ensures ApplicationVersion(ProjectVersion(s, u).value, u) == Some(s)
  {
    hide VersionKey, ReadCore, Marked, Digits;
    var a, b, c, n := KeyPieces(s, u);
    var core := a + "." + b + "." + c;
    if n == "" {
      CoreBack(a, b, c, "", u);
      assert s == core && core + "" == core;
      NoMark(u);
    } else {
      CoreBack(a, b, c, "-rc." + n, u);
      MarkedBack("-rc.", n, u);
      assert s == core + ("-rc." + n);
      CoreBack(a, b, c, "rc" + n, u);
      MarkedBack("rc", n, u);
      assert core + "rc" + n == core + ("rc" + n);
      assert core + "-rc." + n == s;
    }
  }

  /** The distribution spelling of a release version: the core, then rc and the number without a point. */
  lemma DistributionSpelling(v: Version, u: Numerals)
    ensures var core := PrintNumber(v.major) + "." + PrintNumber(v.minor) + "." + PrintNumber(v.patch);
            && ProjectVersion(core, u) == Some(core)
            && (v.rc.Some? ==>
                  && ProjectVersion(core + "-rc." + PrintNumber(v.rc.value), u)
                     == Some(core + "rc" + PrintNumber(v.rc.value))
                  && ProjectVersion(core + "rc" + PrintNumber(v.rc.value), u)
                     == Some(core + "rc" + PrintNumber(v.rc.value)))
  {
    hide VersionKey, ReadCore, Marked, Digits, PrintNumber;
    var a, b, c := PrintNumber(v.major), PrintNumber(v.minor), PrintNumber(v.patch);
    PrintedNumeral(v.major, u);
    PrintedNumeral(v.minor, u);
    PrintedNumeral(v.patch, u);
    var core := a + "." + b + "." + c;
    CoreBack(a, b, c, "", u);
    assert core + "" == core;
    if v.rc.Some? {
      var n := PrintNumber(v.rc.value);
      PrintedNumeral(v.rc.value, u);
      CoreBack(a, b, c, "-rc." + n, u);
      CoreBack(a, b, c, "rc" + n, u);
      MarkedBack("-rc.", n, u);
      MarkedBack("rc", n, u);
      assert core + "-rc." + n == core + ("-rc." + n) && core + "rc" + n == core + ("rc" + n);
      NotMarked(n, u);
    }
  }

  lemma NotMarked(n: string, u: Numerals)
    ensures Marked("rc" + n, "-rc.", u).None?
  {
    assert ("rc" + n)[0] == 'r';
  }

  lemma NoMark(u: Numerals)
    ensures Marked("", "rc", u).None?
  {
  }
}
