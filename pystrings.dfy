// The two Python string operations the converter relies on: `str.strip()`
// (used on every cell while looking for an anchor label) and `str.split(sep)`
// (used to describe the dotted-decimal syntax of an IPv4 address).

module PyStrings {

  /** Python's `str.isspace()`: the characters `str.strip()` removes when it is
      given no argument. */
  predicate IsSpace(c: char)
  {
    var n := c as int;
    (0x09 <= n <= 0x0D) || (0x1C <= n <= 0x20) || n == 0x85 || n == 0xA0 ||
    n == 0x1680 || (0x2000 <= n <= 0x200A) || n == 0x2028 || n == 0x2029 ||
    n == 0x202F || n == 0x205F || n == 0x3000
  }

  /** `s.lstrip()`: drops the white space at the start of `s`. */
  function StripStart(s: string): string
    decreases |s|
  {
    if |s| > 0 && IsSpace(s[0]) then StripStart(s[1..]) else s
  }

  /** `s.rstrip()`: drops the white space at the end of `s`. */
  function StripEnd(s: string): string
    decreases |s|
  {
    if |s| > 0 && IsSpace(s[|s| - 1]) then StripEnd(s[..|s| - 1]) else s
  }

  /** `StripStart(s)` is the longest suffix of `s` that does not start with
      white space. */
  lemma {:induction false} StripStartSuffix(s: string)
    ensures |StripStart(s)| <= |s| && StripStart(s) == s[|s| - |StripStart(s)|..]
    ensures forall k :: 0 <= k < |s| - |StripStart(s)| ==> IsSpace(s[k])
    ensures StripStart(s) == [] || !IsSpace(StripStart(s)[0])
    decreases |s|
  {
    if |s| > 0 && IsSpace(s[0]) {
      StripStartSuffix(s[1..]);
    }
  }

  /** `StripEnd(s)` is the longest prefix of `s` that does not end with
      white space. */
  lemma {:induction false} StripEndPrefix(s: string)
    ensures |StripEnd(s)| <= |s| && StripEnd(s) == s[..|StripEnd(s)|]
    ensures forall k :: |StripEnd(s)| <= k < |s| ==> IsSpace(s[k])
    ensures StripEnd(s) == [] || !IsSpace(StripEnd(s)[|StripEnd(s)| - 1])
    decreases |s|
  {
    if |s| > 0 && IsSpace(s[|s| - 1]) {
      StripEndPrefix(s[..|s| - 1]);
    }
  }

  /** `s.strip()`. */
  function Strip(s: string): string
  {
    StripEnd(StripStart(s))
  }

  /** `Strip(s)` is the slice `s[i..j]` of `s` with only white space outside
      it, and it neither starts nor ends with white space. */
  lemma StripIsTrimmedSlice(s: string)
    ensures exists i, j ::
              && 0 <= i <= j <= |s| && Strip(s) == s[i..j]
              && (forall k :: 0 <= k < i ==> IsSpace(s[k]))
              && (forall k :: j <= k < |s| ==> IsSpace(s[k]))
    ensures Strip(s) == [] || (!IsSpace(Strip(s)[0]) && !IsSpace(Strip(s)[|Strip(s)| - 1]))
  {
    var t := StripStart(s);
    StripStartSuffix(s);
    var i := |s| - |t|;
    var r := StripEnd(t);
    StripEndPrefix(t);
    var j := i + |r|;
    assert r == s[i..j];
    if r != [] {
      assert t[0] == r[0];
    }
  }

  /** Text that neither starts nor ends with white space is left as it is. */
  lemma StripUnchanged(s: string)
    requires s == [] || (!IsSpace(s[0]) && !IsSpace(s[|s| - 1]))
    ensures Strip(s) == s
  {
    assert StripStart(s) == s;
  }

  /** Stripping twice is stripping once. */
  lemma StripIdempotent(s: string)
    ensures Strip(Strip(s)) == Strip(s)
  {
    StripIsTrimmedSlice(s);
  }

  /** Python's `s.split(sep)` for a single-character separator: the maximal
      runs between separators, so `n` separators give `n + 1` parts, some of
      them possibly empty. */
  function Split(s: string, sep: char): (parts: seq<string>)
    ensures |parts| >= 1
    decreases |s|
  {
    if |s| == 0 then [""]
    else
      var rest := Split(s[1..], sep);
      if s[0] == sep then [""] + rest
      else [[s[0]] + rest[0]] + rest[1..]
  }

  /** The inverse of `Split`: `sep.join(parts)`. */
  function Join(parts: seq<string>, sep: char): string
    requires |parts| >= 1
    decreases |parts|
  {
    if |parts| == 1 then parts[0] else parts[0] + [sep] + Join(parts[1..], sep)
  }

  /** Joining the parts of a split gives the string back. */
  lemma {:induction false} JoinSplit(s: string, sep: char)
    ensures Join(Split(s, sep), sep) == s
    ensures forall i :: 0 <= i < |Split(s, sep)| ==> sep !in Split(s, sep)[i]
    decreases |s|
  {
    if |s| > 0 {
      JoinSplit(s[1..], sep);
      var rest := Split(s[1..], sep);
      if s[0] != sep {
        if |rest| > 1 {
          assert [s[0]] + rest[0] + [sep] + Join(rest[1..], sep) == [s[0]] + (rest[0] + [sep] + Join(rest[1..], sep));
        }
        assert ([[s[0]] + rest[0]] + rest[1..])[1..] == rest[1..];
      } else {
        assert ([""] + rest)[1..] == rest;
      }
    }
  }

  /** A string without the separator splits into itself. */
  lemma {:induction false} SplitNoSeparator(x: string, sep: char)
    requires sep !in x
    ensures Split(x, sep) == [x]
    decreases |x|
  {
    if |x| > 0 {
      assert sep !in x[1..];
      SplitNoSeparator(x[1..], sep);
      assert x[0] != sep;
      assert [x[0]] + x[1..] == x;
    }
  }

  /** Splitting `x + sep + y`, where `x` has no separator, yields `x` followed
      by the parts of `y`. */
  lemma {:induction false} SplitAfterPart(x: string, sep: char, y: string)
    requires sep !in x
    ensures Split(x + [sep] + y, sep) == [x] + Split(y, sep)
    decreases |x|
  {
    if |x| == 0 {
      assert x + [sep] + y == [sep] + y;
      assert ([sep] + y)[1..] == y;
    } else {
      assert (x + [sep] + y)[0] == x[0];
      assert (x + [sep] + y)[1..] == x[1..] + [sep] + y;
      assert sep !in x[1..];
      SplitAfterPart(x[1..], sep, y);
      assert [x[0]] + x[1..] == x;
    }
  }

  /** Splitting a join of separator-free parts gives the parts back. */
  lemma {:induction false} SplitJoin(parts: seq<string>, sep: char)
    requires |parts| >= 1
    requires forall i :: 0 <= i < |parts| ==> sep !in parts[i]
    ensures Split(Join(parts, sep), sep) == parts
    decreases |parts|
  {
    if |parts| == 1 {
      SplitNoSeparator(parts[0], sep);
    } else {
      SplitJoin(parts[1..], sep);
      SplitAfterPart(parts[0], sep, Join(parts[1..], sep));
      assert [parts[0]] + parts[1..] == parts;
    }
  }

  /** A property of every character of the parts and of the separator is a
      property of every character of their join. */
  lemma {:induction false} JoinCharacters(parts: seq<string>, sep: char, P: char -> bool)
    requires |parts| >= 1 && P(sep)
    requires forall i, k :: 0 <= i < |parts| && 0 <= k < |parts[i]| ==> P(parts[i][k])
    ensures forall k :: 0 <= k < |Join(parts, sep)| ==> P(Join(parts, sep)[k])
    decreases |parts|
  {
    if |parts| > 1 {
      JoinCharacters(parts[1..], sep, P);
      var rest := Join(parts[1..], sep);
      var j := Join(parts, sep);
      forall k | 0 <= k < |j| ensures P(j[k]) {
        if k < |parts[0]| {
          assert j[k] == parts[0][k];
        } else if k == |parts[0]| {
          assert j[k] == sep;
        } else {
          assert j[k] == rest[k - |parts[0]| - 1];
        }
      }
    }
  }
}
