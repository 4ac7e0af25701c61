/** Small shared datatypes and sequence facts. */
module Prelude {

  datatype Option<+T> = None | Some(value: T) {
    predicate IsFailure() {
      None?
    }

    function PropagateFailure<U>(): Option<U>
      requires None?
    {
      None
    }

    function Extract(): T
      requires Some?
    {
      value
    }
  }

  datatype Result<+T, +E> = Ok(value: T) | Err(error: E)

  type byte = b: nat | b < 256

  type Bytes = seq<byte>

  /** The texts between the separators. */
  function SplitOn(s: string, separator: char): (parts: seq<string>)
    ensures parts != []
    ensures forall i | 0 <= i < |parts| :: separator !in parts[i]
  {
    if s == "" then [""]
    else
      var rest := SplitOn(s[1..], separator);
      if s[0] == separator then [""] + rest else [[s[0]] + rest[0]] + rest[1..]
  }

  /** The parts with the separator between them. */
  function JoinWith(parts: seq<string>, separator: char): string {
    if parts == [] then "" else if |parts| == 1 then parts[0]
    else parts[0] + [separator] + JoinWith(parts[1..], separator)
  }

  lemma {:induction false} SplitJoins(s: string, separator: char)
    ensures JoinWith(SplitOn(s, separator), separator) == s
    decreases |s|
  {
    if s != "" {
      SplitJoins(s[1..], separator);
      var rest := SplitOn(s[1..], separator);
      assert s == [s[0]] + s[1..];
      if s[0] == separator {
        assert ([""] + rest)[1..] == rest;
        assert "" + [separator] + JoinWith(rest, separator) == [separator] + s[1..];
      } else {
        JoinHead(s[0], rest, separator);
      }
    }
  }

  lemma JoinHead(c: char, rest: seq<string>, separator: char)
    requires rest != []
    ensures JoinWith([[c] + rest[0]] + rest[1..], separator) == [c] + JoinWith(rest, separator)
  {
    var parts := [[c] + rest[0]] + rest[1..];
    assert parts[1..] == rest[1..];
    if |rest| > 1 {
      var tail := [separator] + JoinWith(rest[1..], separator);
      assert JoinWith(parts, separator) == [c] + rest[0] + tail && JoinWith(rest, separator) == rest[0] + tail;
    }
  }

  /** Splitting reads back what was joined. */
  lemma {:induction false} JoinSplits(parts: seq<string>, separator: char)
    requires parts != [] && forall i | 0 <= i < |parts| :: separator !in parts[i]
    ensures SplitOn(JoinWith(parts, separator), separator) == parts
    decreases |parts|
  {
    hide SplitOn;
    if |parts| == 1 {
      PlainSplits(parts[0], separator);
    } else {
      JoinSplits(parts[1..], separator);
      PrefixSplits(parts[0], JoinWith(parts[1..], separator), separator);
    }
  }

  lemma {:induction false} PlainSplits(t: string, separator: char)
    requires separator !in t
    ensures SplitOn(t, separator) == [t]
    decreases |t|
  {
    if t != "" {
      assert t[0] in t && forall c | c in t[1..] :: c in t;
      PlainSplits(t[1..], separator);
      assert t == [t[0]] + t[1..];
    }
  }

  lemma {:induction false} PrefixSplits(t: string, rest: string, separator: char)
    requires separator !in t
    ensures SplitOn(t + [separator] + rest, separator) == [t] + SplitOn(rest, separator)
    decreases |t|
  {
    var s := t + [separator] + rest;
    if t == "" {
      assert s[0] == separator && s[1..] == rest;
    } else {
      assert t[0] in t && forall c | c in t[1..] :: c in t;
      assert s[0] == t[0] && s[1..] == t[1..] + [separator] + rest;
      PrefixSplits(t[1..], rest, separator);
      assert t == [t[0]] + t[1..];
    }
  }

  function Reverse<T>(s: seq<T>): (r: seq<T>)
    ensures |r| == |s|
  {
    if s == [] then [] else Reverse(s[1..]) + [s[0]]
  }

  lemma {:induction false} ReverseSnoc<T>(s: seq<T>, x: T)
    ensures Reverse(s + [x]) == [x] + Reverse(s)
  {
    if s == [] {
    } else {
      assert (s + [x])[1..] == s[1..] + [x];
      ReverseSnoc(s[1..], x);
    }
  }

  lemma {:induction false} Below(n: nat, s: set<nat>)
    requires forall i | i in s :: i < n
    ensures |s| <= n
    decreases n
  {
    if n > 0 {
      var rest := s - {n - 1};
      Below(n - 1, rest);
      assert |s| <= |rest| + 1 by {
        if n - 1 in s { assert s == rest + {n - 1}; } else { assert s == rest; }
      }
    } else {
      assert s == {};
    }
  }

  lemma SubsetSize<T>(a: set<T>, b: set<T>)
    requires a <= b
    ensures |a| <= |b|
  {
    assert b == a + (b - a);
  }
}
