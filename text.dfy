/**
 * The JavaScript string operations the button code relies on: `split(" ")`,
 * `substring`, `startsWith`/`endsWith`, `toUpperCase` (ASCII letters only) and
 * `trim`.
 */
module Text {

  /** `s.startsWith(prefix)`. */
  predicate StartsWith(s: string, prefix: string) {
    |prefix| <= |s| && s[..|prefix|] == prefix
  }

  /** `s.substring(start)` for a non-negative start: a start past the end yields "". */
  function Substring(s: string, start: nat): (r: string)
    ensures |r| == if start <= |s| then |s| - start else 0
    ensures r == s[|s| - |r|..]
  {
    if start <= |s| then s[start..] else ""
  }

  // ---------------------------------------------------------------------------
  // split(" ") and its inverse, join(" ")
  // ---------------------------------------------------------------------------

  /**
   * `s.split(" ")`: the pieces between single spaces, empty pieces included, so
   * the empty string gives [""] and two adjacent spaces give an empty piece.
   */
  function Split(s: string): (parts: seq<string>)
    ensures |parts| >= 1
    ensures forall k :: 0 <= k < |parts| ==> ' ' !in parts[k]
    decreases |s|
  {
    if s == [] then [""]
    else if s[0] == ' ' then [""] + Split(s[1..])
    else
      var rest := Split(s[1..]);
      [[s[0]] + rest[0]] + rest[1..]
  }

  /** `parts.join(" ")`. */
  function Join(parts: seq<string>): string
    decreases |parts|
  {
    if |parts| == 0 then ""
    else if |parts| == 1 then parts[0]
    else parts[0] + " " + Join(parts[1..])
  }

  /** Joining the pieces of a split gives back the original string. */
  lemma {:induction false} JoinSplit(s: string)
    ensures Join(Split(s)) == s
    decreases |s|
  {
    if s == [] {
    } else if s[0] == ' ' {
      var rest := Split(s[1..]);
      JoinSplit(s[1..]);
      assert ([""] + rest)[1..] == rest;
    } else {
      var rest := Split(s[1..]);
      JoinSplit(s[1..]);
      var parts := [[s[0]] + rest[0]] + rest[1..];
      if |rest| == 1 {
        assert s == [s[0]] + s[1..];
      } else {
        assert parts[1..] == rest[1..];
        assert s == [s[0]] + s[1..];
      }
    }
  }

  /** A piece without spaces followed by a space: splitting peels that piece off. */
  lemma {:induction false} SplitAtSpace(p: string, t: string)
    requires ' ' !in p
    ensures Split(p + " " + t) == [p] + Split(t)
    decreases |p|
  {
    if p == [] {
      assert p + " " + t == [' '] + t;
      assert (p + " " + t)[1..] == t;
    } else {
      SplitAtSpace(p[1..], t);
      assert (p + " " + t)[1..] == p[1..] + " " + t;
      assert [p[0]] + p[1..] == p;
    }
  }

  /** A string without spaces is a single piece. */
  lemma {:induction false} SplitNoSpace(p: string)
    requires ' ' !in p
    ensures Split(p) == [p]
    decreases |p|
  {
    if p != [] {
      SplitNoSpace(p[1..]);
      assert [p[0]] + p[1..] == p;
    }
  }

  /** Splitting a join of space-free pieces gives back the pieces. */
  lemma {:induction false} SplitJoin(parts: seq<string>)
    requires |parts| >= 1
    requires forall k :: 0 <= k < |parts| ==> ' ' !in parts[k]
    ensures Split(Join(parts)) == parts
    decreases |parts|
  {
    if |parts| == 1 {
      SplitNoSpace(parts[0]);
    } else {
      SplitJoin(parts[1..]);
      SplitAtSpace(parts[0], Join(parts[1..]));
      assert [parts[0]] + parts[1..] == parts;
    }
  }

  // ---------------------------------------------------------------------------
  // toUpperCase and trim
  // ---------------------------------------------------------------------------

  /** Upper-casing of one character, restricted to the ASCII letters. */
  function UpperChar(c: char): char {
    if 'a' <= c <= 'z' then (c as int - 32) as char else c
  }

  /** `s.toUpperCase()` with ASCII case mapping. */
  function Upper(s: string): (r: string)
    ensures |r| == |s|
    ensures forall i :: 0 <= i < |s| ==> r[i] == UpperChar(s[i])
  {
    seq(|s|, i requires 0 <= i < |s| => UpperChar(s[i]))
  }

  /** The characters `trim` removes: ECMAScript WhiteSpace and LineTerminator. */
  predicate IsWhitespace(c: char) {
    c == ' ' || c == '\t' || c == '\n' || c == '\r' || c == '\U{000B}' || c == '\U{000C}'
    || c == '\U{00A0}' || c == '\U{1680}' || ('\U{2000}' <= c <= '\U{200A}')
    || c == '\U{2028}' || c == '\U{2029}' || c == '\U{202F}' || c == '\U{205F}'
    || c == '\U{3000}' || c == '\U{FEFF}'
  }

  /** Drops leading whitespace: the result is the suffix that starts at the first non-whitespace character. */
  function TrimStart(s: string): (r: string)
    ensures |r| <= |s| && r == s[|s| - |r|..]
    ensures forall i :: 0 <= i < |s| - |r| ==> IsWhitespace(s[i])
    ensures r == [] || !IsWhitespace(r[0])
    decreases |s|
  {
    if s != [] && IsWhitespace(s[0]) then TrimStart(s[1..]) else s
  }

  /** Drops trailing whitespace: the result is the prefix that ends at the last non-whitespace character. */
  function TrimEnd(s: string): (r: string)
    ensures |r| <= |s| && r == s[..|r|]
    ensures forall i :: |r| <= i < |s| ==> IsWhitespace(s[i])
    ensures r == [] || !IsWhitespace(r[|r| - 1])
    decreases |s|
  {
    if s != [] && IsWhitespace(s[|s| - 1]) then TrimEnd(s[..|s| - 1]) else s
  }

  /**
   * `s.trim()`: the slice of `s` left after removing whitespace at both ends;
   * it is empty or starts and ends with a non-whitespace character.
   */
  function Trim(s: string): (r: string)
    ensures exists i :: StrippedAt(s, i, r)
    ensures r == [] || (!IsWhitespace(r[0]) && !IsWhitespace(r[|r| - 1]))
  {
    TrimStripped(s);
    TrimEnd(TrimStart(s))
  }

  /** What `TrimStart` and then `TrimEnd` leave is the slice after the leading whitespace. */
  lemma TrimStripped(s: string)
    ensures StrippedAt(s, |s| - |TrimStart(s)|, TrimEnd(TrimStart(s)))
  {
    LeadingWhitespace(s);
    TrailingWhitespace(TrimStart(s));
    StrippedTwice(s, TrimStart(s), TrimEnd(TrimStart(s)));
  }

  /** Whitespace stripped off the front of `s` to give `t`, then off the back of `t` to give `r`. */
  lemma StrippedTwice(s: string, t: string, r: string)
    requires |t| <= |s| && s == s[..|s| - |t|] + t && AllWhitespace(s[..|s| - |t|])
    requires |r| <= |t| && t == r + t[|r|..] && AllWhitespace(t[|r|..])
    ensures StrippedAt(s, |s| - |t|, r)
  {
    var a := s[..|s| - |t|];
    var b := t[|r|..];
    assert a + (r + b) == a + r + b;
    StrippedConcat(a, r, b);
  }

  /** The characters `TrimStart` drops are all whitespace, and come before the rest. */
  lemma LeadingWhitespace(s: string)
    ensures s == s[..|s| - |TrimStart(s)|] + TrimStart(s)
    ensures AllWhitespace(s[..|s| - |TrimStart(s)|])
  {
    WhitespaceBefore(s, TrimStart(s));
  }

  /** The characters `TrimEnd` drops are all whitespace, and come after the rest. */
  lemma TrailingWhitespace(t: string)
    ensures t == TrimEnd(t) + t[|TrimEnd(t)|..]
    ensures AllWhitespace(t[|TrimEnd(t)|..])
  {
    WhitespaceAfter(t, TrimEnd(t));
  }

  /** A suffix `r` of `s` preceded by whitespace only. */
  lemma WhitespaceBefore(s: string, r: string)
    requires |r| <= |s| && r == s[|s| - |r|..]
    requires forall k :: 0 <= k < |s| - |r| ==> IsWhitespace(s[k])
    ensures s == s[..|s| - |r|] + r
    ensures AllWhitespace(s[..|s| - |r|])
  {
    var i := |s| - |r|;
    assert forall k :: 0 <= k < i ==> s[..i][k] == s[k];
  }

  /** A prefix `r` of `t` followed by whitespace only. */
  lemma WhitespaceAfter(t: string, r: string)
    requires |r| <= |t| && r == t[..|r|]
    requires forall k :: |r| <= k < |t| ==> IsWhitespace(t[k])
    ensures t == r + t[|r|..]
    ensures AllWhitespace(t[|r|..])
  {
    var n := |r|;
    assert forall k :: 0 <= k < |t| - n ==> t[n..][k] == t[n + k];
  }

  /** Whitespace, then `r`, then whitespace: `r` is stripped out at the length of the first part. */
  lemma StrippedConcat(a: string, r: string, b: string)
    requires AllWhitespace(a) && AllWhitespace(b)
    ensures StrippedAt(a + r + b, |a|, r)
  {
    var s := a + r + b;
    assert s[..|a|] == a;
    assert s[|a|..|a| + |r|] == r;
    assert s[|a| + |r|..] == b;
  }

  predicate AllWhitespace(x: string) {
    forall k :: 0 <= k < |x| ==> IsWhitespace(x[k])
  }

  /** `r` is the slice of `s` at `i`, with only whitespace before and after it. */
  predicate StrippedAt(s: string, i: nat, r: string) {
    i + |r| <= |s| && s[i..i + |r|] == r && AllWhitespace(s[..i]) && AllWhitespace(s[i + |r|..])
  }

  /** Trimming keeps a prefix that starts and ends with non-whitespace characters. */
  lemma TrimKeepsPrefix(s: string, n: nat)
    requires 0 < n <= |s| && !IsWhitespace(s[0]) && !IsWhitespace(s[n - 1])
    ensures StartsWith(Trim(s), s[..n])
  {
    var t := TrimStart(s);
    assert |t| == |s|;
    assert t == s;
    var tt := TrimEnd(t);
    assert |tt| >= n;
    assert tt[..n] == s[..n];
  }
}
