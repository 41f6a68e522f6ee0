/**
  The Python string operations the fact parser relies on, over
  `string == seq<char>`: `strip`/`rstrip` with an explicit character set,
  `split` on a separator (all occurrences, or only the first), and the
  code-point order in which `sorted` arranges strings.
 */
module Text {

  /** Characters for which Python's `str.isspace` holds; `str.strip()` removes these. */
  const Whitespace: set<char> := {
    '\t', '\n', '\U{b}', '\U{c}', '\r', '\U{1c}', '\U{1d}', '\U{1e}', '\U{1f}', ' ',
    '\U{85}', '\U{a0}', '\U{1680}',
    '\U{2000}', '\U{2001}', '\U{2002}', '\U{2003}', '\U{2004}', '\U{2005}',
    '\U{2006}', '\U{2007}', '\U{2008}', '\U{2009}', '\U{200a}',
    '\U{2028}', '\U{2029}', '\U{202f}', '\U{205f}', '\U{3000}'
  }

  /** `s.lstrip(cs)`: drops the longest prefix made of characters of `cs`. */
  function LStrip(s: string, cs: set<char>): (r: string)
    ensures |r| <= |s| && r == s[|s| - |r|..]
    ensures forall k :: 0 <= k < |s| - |r| ==> s[k] in cs
    ensures |r| > 0 ==> r[0] !in cs
    decreases |s|
  {
    if |s| > 0 && s[0] in cs then LStrip(s[1..], cs) else s
  }

  /** `s.rstrip(cs)`: drops the longest suffix made of characters of `cs`. */
  function RStrip(s: string, cs: set<char>): (r: string)
    ensures |r| <= |s| && r == s[..|r|]
    ensures forall k :: |r| <= k < |s| ==> s[k] in cs
    ensures |r| > 0 ==> r[|r| - 1] !in cs
    decreases |s|
  {
    if |s| > 0 && s[|s| - 1] in cs then RStrip(s[..|s| - 1], cs) else s
  }

  /**
    `s.strip(cs)`: both ends stripped. The result is a middle slice of `s`
    with only characters of `cs` cut off on either side, and it neither
    starts nor ends with one of them.
   */
  function Strip(s: string, cs: set<char>): (r: string)
    ensures exists i, j ::
      && 0 <= i <= j <= |s| && r == s[i..j]
      && (forall k :: 0 <= k < i ==> s[k] in cs)
      && (forall k :: j <= k < |s| ==> s[k] in cs)
    ensures |r| > 0 ==> r[0] !in cs && r[|r| - 1] !in cs
  {
    StripSlice(s, cs);
    RStrip(LStrip(s, cs), cs)
  }

  /** `Strip` cuts off a prefix and a suffix of `s` made of characters of `cs`. */
  lemma StripSlice(s: string, cs: set<char>)
    ensures exists i, j ::
      && 0 <= i <= j <= |s| && RStrip(LStrip(s, cs), cs) == s[i..j]
      && (forall k :: 0 <= k < i ==> s[k] in cs)
      && (forall k :: j <= k < |s| ==> s[k] in cs)
  {
    var l := LStrip(s, cs);
    var r := RStrip(l, cs);
    var i := |s| - |l|;
    var j := i + |r|;
    assert r == s[i..j];
    assert forall k :: j <= k < |s| ==> s[k] == l[k - i];
  }

  /** Only characters of `cs` are removed: every other character of `s` survives. */
  lemma StripKeeps(s: string, cs: set<char>, c: char)
    requires c !in cs
    ensures c in Strip(s, cs) <==> c in s
  {
    LStripKeeps(s, cs, c);
    RStripKeeps(LStrip(s, cs), cs, c);
  }

  lemma LStripKeeps(s: string, cs: set<char>, c: char)
    requires c !in cs
    ensures c in LStrip(s, cs) <==> c in s
  {
    var l := LStrip(s, cs);
    var off := |s| - |l|;
    assert s == s[..off] + l;
    assert c !in s[..off];
  }

  lemma RStripKeeps(s: string, cs: set<char>, c: char)
    requires c !in cs
    ensures c in RStrip(s, cs) <==> c in s
  {
    var r := RStrip(s, cs);
    assert s == r + s[|r|..];
    assert c !in s[|r|..];
  }

  /** Python's argument-less `s.strip()`. */
  function Trim(s: string): (r: string)
    ensures exists i, j ::
      && 0 <= i <= j <= |s| && r == s[i..j]
      && (forall k :: 0 <= k < i ==> s[k] in Whitespace)
      && (forall k :: j <= k < |s| ==> s[k] in Whitespace)
    ensures |r| > 0 ==> r[0] !in Whitespace && r[|r| - 1] !in Whitespace
  {
    StripSlice(s, Whitespace);
    Strip(s, Whitespace)
  }

  /** A string with no whitespace at either end is its own trim. */
  predicate Trimmed(s: string) {
    |s| > 0 ==> s[0] !in Whitespace && s[|s| - 1] !in Whitespace
  }

  /** The first position of `c` in `s`. */
  function IndexOf(s: string, c: char): (i: nat)
    requires c in s
    ensures i < |s| && s[i] == c
    ensures c !in s[..i]
  {
    if s[0] == c then 0
    else
      assert c in s[1..];
      1 + IndexOf(s[1..], c)
  }

  /** The first position is the only position before which `c` does not occur. */
  lemma {:induction false} IndexOfExact(s: string, c: char, i: nat)
    requires i < |s| && s[i] == c && c !in s[..i]
    ensures IndexOf(s, c) == i
  {
    if s[0] != c {
      assert s[1..][..i - 1] == s[..i][1..];
      IndexOfExact(s[1..], c, i - 1);
    }
  }

  lemma LStripStop(s: string, cs: set<char>)
    requires |s| > 0 ==> s[0] !in cs
    ensures LStrip(s, cs) == s
  {
  }

  lemma RStripStop(s: string, cs: set<char>)
    requires |s| > 0 ==> s[|s| - 1] !in cs
    ensures RStrip(s, cs) == s
  {
  }

  lemma RStripDrop(s: string, c: char, cs: set<char>)
    requires c in cs
    ensures RStrip(s + [c], cs) == RStrip(s, cs)
  {
    assert (s + [c])[..|s|] == s;
  }

  /** A string with no whitespace at its ends is unchanged by `strip()`. */
  lemma TrimTrimmed(s: string)
    requires Trimmed(s)
    ensures Trim(s) == s
  {
    assert LStrip(s, Whitespace) == s;
  }

  /** `strip()` removes the single space `", "` leaves before a field. */
  lemma TrimAfterSpace(s: string)
    requires Trimmed(s)
    ensures Trim([' '] + s) == s
  {
    assert ([' '] + s)[1..] == s;
    assert LStrip([' '] + s, Whitespace) == LStrip(s, Whitespace) == s;
  }

  /** `s.split(c, 1)` when `c` occurs in `s`: the text before and after its first occurrence. */
  function SplitOnce(s: string, c: char): (r: (string, string))
    requires c in s
    ensures c !in r.0
    ensures r.0 + [c] + r.1 == s
  {
    var i := IndexOf(s, c);
    assert s == s[..i] + [c] + s[i + 1..];
    (s[..i], s[i + 1..])
  }

  /** `sep.join(parts)`. */
  function Join(parts: seq<string>, sep: char): string {
    if |parts| == 0 then ""
    else if |parts| == 1 then parts[0]
    else parts[0] + [sep] + Join(parts[1..], sep)
  }

  /**
    `s.split(sep)`: the pieces between occurrences of `sep`. There is always
    at least one piece, no piece contains `sep`, and joining the pieces
    gives `s` back.
   */
  function Split(s: string, sep: char): (parts: seq<string>)
    ensures |parts| >= 1
    ensures forall k :: 0 <= k < |parts| ==> sep !in parts[k]
    ensures Join(parts, sep) == s
    decreases |s|
  {
    if sep in s then
      var (head, tail) := SplitOnce(s, sep);
      [head] + Split(tail, sep)
    else [s]
  }

  /** The other half of the round trip: splitting a join gives the pieces back. */
  lemma {:induction false} SplitJoin(parts: seq<string>, sep: char)
    requires |parts| >= 1
    requires forall k :: 0 <= k < |parts| ==> sep !in parts[k]
    ensures Split(Join(parts, sep), sep) == parts
    decreases |parts|
  {
    var s := Join(parts, sep);
    if |parts| > 1 {
      var rest := Join(parts[1..], sep);
      assert s == parts[0] + [sep] + rest;
      assert s[|parts[0]|] == sep;
      assert s[..|parts[0]|] == parts[0];
      var i := IndexOf(s, sep);
      assert i == |parts[0]|;
      assert s[..i] == parts[0];
      assert s[i + 1..] == rest;
      SplitJoin(parts[1..], sep);
      assert Split(s, sep) == [parts[0]] + Split(rest, sep);
      assert [parts[0]] + parts[1..] == parts;
    }
  }

  /** Python's `<` on strings: lexicographic by code point, a proper prefix first. */
  predicate Less(a: string, b: string)
    decreases |a|
  {
    |b| > 0 && (|a| == 0 || a[0] < b[0] || (a[0] == b[0] && Less(a[1..], b[1..])))
  }

  lemma {:induction false} LessIrreflexive(a: string)
    ensures !Less(a, a)
    decreases |a|
  {
    if |a| > 0 {
      LessIrreflexive(a[1..]);
    }
  }

  lemma {:induction false} LessTransitive(a: string, b: string, c: string)
    requires Less(a, b) && Less(b, c)
    ensures Less(a, c)
    decreases |a|
  {
    if |a| > 0 && a[0] == b[0] && b[0] == c[0] {
      LessTransitive(a[1..], b[1..], c[1..]);
    }
  }

  lemma {:induction false} LessTotal(a: string, b: string)
    requires a != b
    ensures Less(a, b) || Less(b, a)
    decreases |a|
  {
    if |a| > 0 && |b| > 0 && a[0] == b[0] {
      assert a == [a[0]] + a[1..] && b == [b[0]] + b[1..];
      LessTotal(a[1..], b[1..]);
    }
  }

  lemma LessAsymmetric(a: string, b: string)
    requires Less(a, b)
    ensures !Less(b, a)
  {
    if Less(b, a) {
      LessTransitive(a, b, a);
      LessIrreflexive(a);
    }
  }

  /**
    The usual description of string order, independent of `Less`: `a` is
    a proper prefix of `b`, or the two agree up to a first position where
    `a` has the smaller code point.
   */
  predicate FirstDifferenceLess(a: string, b: string) {
    || (|a| < |b| && a == b[..|a|])
    || exists k :: 0 <= k < |a| && k < |b| && a[..k] == b[..k] && a[k] < b[k]
  }

  lemma {:induction false} LessIffFirstDifference(a: string, b: string)
    ensures Less(a, b) <==> FirstDifferenceLess(a, b)
    decreases |a|
  {
    if |a| > 0 && |b| > 0 {
      var a', b' := a[1..], b[1..];
      LessIffFirstDifference(a', b');
      if Less(a, b) {
        if a[0] < b[0] {
          assert a[..0] == b[..0];
        } else {
          assert a[0] == b[0] && FirstDifferenceLess(a', b');
          if |a'| < |b'| && a' == b'[..|a'|] {
            assert a == b[..|a|];
          } else {
            var k :| 0 <= k < |a'| && k < |b'| && a'[..k] == b'[..k] && a'[k] < b'[k];
            assert a[..k + 1] == [a[0]] + a'[..k] && b[..k + 1] == [b[0]] + b'[..k];
            assert a[k + 1] < b[k + 1];
          }
        }
      }
      if FirstDifferenceLess(a, b) && !(a[0] < b[0]) {
        if |a| < |b| && a == b[..|a|] {
          assert a[0] == b[0] && a' == b'[..|a'|];
        } else {
          var k :| 0 <= k < |a| && k < |b| && a[..k] == b[..k] && a[k] < b[k];
          assert k > 0;
          assert a[0] == a[..k][0] == b[..k][0] == b[0];
          assert a'[..k - 1] == a[1..k] == b[1..k] == b'[..k - 1];
          assert a'[k - 1] < b'[k - 1];
        }
        assert FirstDifferenceLess(a', b');
      }
    }
  }
}
