/**
 * The three Python string operations the text module relies on, on strings of
 * code points: `str.strip()` with no argument, `str.split(sep)` with a
 * one-character separator, and `sep.join(parts)`.
 */
module PyStr {

  /** Python's `str.isspace()` for one code point: the Unicode white space
      (category Zs, or bidirectional class WS, B or S). */
  predicate IsSpace(c: char) {
    ('\t' <= c <= '\r') || ('\U{1C}' <= c <= '\U{1F}') || c == ' '
    || c == '\U{85}' || c == '\U{A0}' || c == '\U{1680}'
    || ('\U{2000}' <= c <= '\U{200A}') || c == '\U{2028}' || c == '\U{2029}'
    || c == '\U{202F}' || c == '\U{205F}' || c == '\U{3000}'
  }

  predicate AllSpace(s: string) {
    forall i :: 0 <= i < |s| ==> IsSpace(s[i])
  }

  /** Neither end of `s` is white space: what `strip()` guarantees of its result. */
  predicate Stripped(s: string) {
    s == [] || (!IsSpace(s[0]) && !IsSpace(s[|s| - 1]))
  }

  /** `s.lstrip()`: the suffix left after dropping leading white space. */
  function TrimStart(s: string): (r: string)
    ensures |r| <= |s|
    ensures r == [] || !IsSpace(r[0])
    decreases |s|
  {
    if s != [] && IsSpace(s[0]) then TrimStart(s[1..]) else s
  }

  /** What `lstrip()` drops is a prefix of white space. */
  lemma {:induction false} TrimStartDrops(s: string)
    ensures TrimStart(s) == s[|s| - |TrimStart(s)|..]
    ensures AllSpace(s[..|s| - |TrimStart(s)|])
    decreases |s|
  {
    if s != [] && IsSpace(s[0]) {
      TrimStartDrops(s[1..]);
      var n := |s| - |TrimStart(s)|;
      assert s[1..][..n - 1] == s[1..n];
      assert forall i :: 1 <= i < n ==> s[i] == s[1..n][i - 1];
    }
  }

  /** `s.rstrip()`: the prefix left after dropping trailing white space. */
  function TrimEnd(s: string): (r: string)
    ensures |r| <= |s|
    ensures r == [] || !IsSpace(r[|r| - 1])
    decreases |s|
  {
    if s != [] && IsSpace(s[|s| - 1]) then TrimEnd(s[..|s| - 1]) else s
  }

  /** What `rstrip()` drops is a suffix of white space. */
  lemma {:induction false} TrimEndDrops(s: string)
    ensures TrimEnd(s) == s[..|TrimEnd(s)|]
    ensures AllSpace(s[|TrimEnd(s)|..])
    decreases |s|
  {
    if s != [] && IsSpace(s[|s| - 1]) {
      TrimEndDrops(s[..|s| - 1]);
      var m := |TrimEnd(s)|;
      assert s[..|s| - 1][m..] == s[m..|s| - 1];
      assert forall i :: m <= i < |s| - 1 ==> s[i] == s[m..|s| - 1][i - m];
    }
  }

  /** `s.strip()`. */
  function Strip(s: string): (r: string)
    ensures Stripped(r)
    ensures |r| <= |s|
  {
    var t := TrimStart(s);
    TrimEndDrops(t);
    TrimEnd(t)
  }

  /** The two pieces `strip()` removes, so that `s == Lead(s) + Strip(s) + Trail(s)`. */
  function Lead(s: string): (r: string) {
    s[..|s| - |TrimStart(s)|]
  }

  function Trail(s: string): (r: string) {
    var t := TrimStart(s);
    t[|TrimEnd(t)|..]
  }

  /** `strip()` only removes white space, and only from the two ends. */
  lemma StripDecomposes(s: string)
    ensures s == Lead(s) + Strip(s) + Trail(s)
    ensures AllSpace(Lead(s)) && AllSpace(Trail(s))
  {
    var t := TrimStart(s);
    var e := TrimEnd(t);
    var u, w := Lead(s), Trail(s);
    TrimStartDrops(s);
    TrimEndDrops(t);
    assert e == t[..|e|] && w == t[|e|..];
    Halves(t, |e|);
    assert t == s[|s| - |t|..] && u == s[..|s| - |t|];
    Halves(s, |s| - |t|);
    Assoc(u, e, w);
  }

  lemma Halves(x: string, i: nat)
    requires i <= |x|
    ensures x[..i] + x[i..] == x
  {
  }

  lemma Assoc<T>(a: seq<T>, b: seq<T>, c: seq<T>)
    ensures a + b + c == a + (b + c)
  {
  }

  /** A string of white space only strips to the empty string, and nothing else does. */
  lemma StripEmptyIff(s: string)
    ensures Strip(s) == [] <==> AllSpace(s)
  {
    StripDecomposes(s);
    if Strip(s) == [] {
      AllSpaceConcat(Lead(s), Trail(s));
      assert s == Lead(s) + Trail(s);
    }
    if AllSpace(s) {
      TrimStartAllSpace(s);
    }
  }

  lemma {:induction false} TrimStartAllSpace(s: string)
    requires AllSpace(s)
    ensures TrimStart(s) == []
    decreases |s|
  {
    if s != [] {
      TrimStartAllSpace(s[1..]);
    }
  }

  lemma AllSpaceConcat(a: string, b: string)
    requires AllSpace(a) && AllSpace(b)
    ensures AllSpace(a + b)
  {
    assert forall i :: 0 <= i < |a + b| ==> (a + b)[i] == if i < |a| then a[i] else b[i - |a|];
  }

  /** `strip()` characterised without reference to how it is computed: a string
      made of white space, a stripped core and white space strips to that core. */
  lemma {:induction false} StripUnique(a: string, t: string, b: string)
    requires AllSpace(a) && AllSpace(b) && Stripped(t)
    ensures Strip(a + t + b) == t
  {
    if t == [] {
      AllSpaceConcat(a, b);
      assert a + t + b == a + b;
      StripEmptyIff(a + b);
    } else {
      TrimStartPast(a, t + b);
      assert a + t + b == a + (t + b);
      TrimEndPast(t, b);
    }
  }

  lemma {:induction false} TrimStartPast(a: string, u: string)
    requires AllSpace(a) && (u == [] || !IsSpace(u[0]))
    ensures TrimStart(a + u) == u
    decreases |a|
  {
    if a != [] {
      assert (a + u)[1..] == a[1..] + u;
      TrimStartPast(a[1..], u);
    }
  }

  lemma {:induction false} TrimEndPast(t: string, b: string)
    requires AllSpace(b) && (t == [] || !IsSpace(t[|t| - 1]))
    ensures TrimEnd(t + b) == t
    decreases |b|
  {
    if b != [] {
      assert (t + b)[..|t + b| - 1] == t + b[..|b| - 1];
      TrimEndPast(t, b[..|b| - 1]);
    } else {
      assert t + b == t;
    }
  }

  /** A string with no white space at its ends is its own strip. */
  lemma StripOfStripped(t: string)
    requires Stripped(t)
    ensures Strip(t) == t
  {
    assert [] + t + [] == t;
    StripUnique([], t, []);
  }

  /** Stripping twice is stripping once. */
  lemma StripIdempotent(s: string)
    ensures Strip(Strip(s)) == Strip(s)
  {
    StripOfStripped(Strip(s));
  }

  /** `s.split(sep)`: the maximal runs between occurrences of `sep`; never empty,
      since `"".split(sep) == [""]`. */
  function Split(s: string, sep: char): (r: seq<string>)
    ensures |r| >= 1
    ensures forall k :: 0 <= k < |r| ==> sep !in r[k]
    decreases |s|
  {
    if s == [] then [""]
    else
      var rest := Split(s[1..], sep);
      if s[0] == sep then [""] + rest
      else [[s[0]] + rest[0]] + rest[1..]
  }

  /** `sep.join(parts)`. */
  function Join(parts: seq<string>, sep: char): (r: string)
    decreases |parts|
  {
    if parts == [] then ""
    else if |parts| == 1 then parts[0]
    else parts[0] + [sep] + Join(parts[1..], sep)
  }

  /** Joining the pieces of a split with the same separator gives the string back. */
  lemma {:induction false} JoinSplit(s: string, sep: char)
    ensures Join(Split(s, sep), sep) == s
    decreases |s|
  {
    if s != [] {
      var rest := Split(s[1..], sep);
      JoinSplit(s[1..], sep);
      if s[0] == sep {
        assert Join([""] + rest, sep) == "" + [sep] + Join(rest, sep) by {
          assert ([""] + rest)[1..] == rest;
        }
        assert s == [s[0]] + s[1..];
      } else {
        var parts := [[s[0]] + rest[0]] + rest[1..];
        if |rest| == 1 {
          assert parts == [[s[0]] + rest[0]];
        } else {
          assert parts[1..] == rest[1..];
          assert Join(rest, sep) == rest[0] + [sep] + Join(rest[1..], sep);
        }
        assert s == [s[0]] + s[1..];
      }
    }
  }

  /** Splitting a join of separator-free pieces gives the pieces back. */
  lemma {:induction false} SplitJoin(parts: seq<string>, sep: char)
    requires |parts| >= 1
    requires forall k :: 0 <= k < |parts| ==> sep !in parts[k]
    ensures Split(Join(parts, sep), sep) == parts
    decreases |parts|
  {
    if |parts| == 1 {
      SplitFree(parts[0], sep);
    } else {
      SplitJoin(parts[1..], sep);
      SplitPrefix(parts[0], Join(parts[1..], sep), sep);
      assert [parts[0]] + parts[1..] == parts;
    }
  }

  /** A string with no separator in it splits into itself. */
  lemma {:induction false} SplitFree(s: string, sep: char)
    requires sep !in s
    ensures Split(s, sep) == [s]
    decreases |s|
  {
    if s != [] {
      SplitFree(s[1..], sep);
      assert [s[0]] + s[1..] == s;
    }
  }

  /** Splitting `w + [sep] + u` for a separator-free `w` puts `w` in front of the pieces of `u`. */
  lemma {:induction false} SplitPrefix(w: string, u: string, sep: char)
    requires sep !in w
    ensures Split(w + [sep] + u, sep) == [w] + Split(u, sep)
    decreases |w|
  {
    var s := w + [sep] + u;
    if w == [] {
      assert s[1..] == u;
    } else {
      assert s[1..] == w[1..] + [sep] + u;
      SplitPrefix(w[1..], u, sep);
      assert [w[0]] + w[1..] == w;
    }
  }
}
