/**
 * The Python 2 `str` operations the status-file parser is built from, on `seq<char>`:
 * `strip`, `startswith`, `in`, `split` on one separator character, and `replace`
 * of one character or of a two-character pattern by the empty string.
 */
module PyStrings {

  /** The characters Python 2's `str.isspace` accepts: space, \t, \n, \v, \f and \r. */
  predicate IsSpace(ch: char) {
    ch == ' ' || ('\t' <= ch <= '\r')
  }

  predicate AllSpace(s: string) {
    forall i :: 0 <= i < |s| ==> IsSpace(s[i])
  }

  /** Neither end of `s` is whitespace. */
  predicate Stripped(s: string) {
    s == [] || (!IsSpace(s[0]) && !IsSpace(s[|s| - 1]))
  }

  /** `s.startswith(p)` */
  predicate StartsWith(s: string, p: string) {
    |p| <= |s| && s[..|p|] == p
  }

  // ---------------------------------------------------------------------------
  // strip

  /** The first position at or after `i` that holds no whitespace, or `|s|`. */
  function SkipSpace(s: string, i: nat): (j: nat)
    requires i <= |s|
    ensures i <= j <= |s|
    ensures forall k :: i <= k < j ==> IsSpace(s[k])
    ensures j < |s| ==> !IsSpace(s[j])
    decreases |s| - i
  {
    if i < |s| && IsSpace(s[i]) then SkipSpace(s, i + 1) else i
  }

  /** Scanning back from `j`, but not below `lo`, the end of the last character that is
      not whitespace. */
  function SkipSpaceBack(s: string, lo: nat, j: nat): (i: nat)
    requires lo <= j <= |s|
    ensures lo <= i <= j
    ensures forall k :: i <= k < j ==> IsSpace(s[k])
    ensures lo < i ==> !IsSpace(s[i - 1])
    decreases j
  {
    if lo < j && IsSpace(s[j - 1]) then SkipSpaceBack(s, lo, j - 1) else j
  }

  /** `s.strip()`, the way CPython computes it: skip whitespace from the left, then from
      the right down to where the left scan stopped, and keep what lies between. */
  function Strip(s: string): string {
    var a := SkipSpace(s, 0);
    s[a..SkipSpaceBack(s, a, |s|)]
  }

  /** A scan over a prefix `p` and then `x` is the scan over `x`, shifted. */
  lemma {:induction false} SkipSpaceShift(p: string, x: string, i: nat)
    requires i <= |x|
    ensures SkipSpace(p + x, |p| + i) == |p| + SkipSpace(x, i)
    decreases |x| - i
  {
    var t := p + x;
    if i < |x| {
      assert t[|p| + i] == x[i];
      if IsSpace(x[i]) {
        SkipSpaceShift(p, x, i + 1);
      }
    }
  }

  /** The backward scan over `x` placed after a prefix `p` is the scan over `x`, shifted. */
  lemma {:induction false} SkipSpaceBackShift(p: string, x: string, lo: nat, j: nat)
    requires lo <= j <= |x|
    ensures SkipSpaceBack(p + x, |p| + lo, |p| + j) == |p| + SkipSpaceBack(x, lo, j)
    decreases j
  {
    var t := p + x;
    if lo < j {
      assert t[|p| + j - 1] == x[j - 1];
      if IsSpace(x[j - 1]) {
        SkipSpaceBackShift(p, x, lo, j - 1);
      }
    }
  }

  /** Whitespace from `i` to `m` is skipped. */
  lemma {:induction false} SkipSpaceOver(s: string, i: nat, m: nat)
    requires i <= m <= |s|
    requires forall k :: i <= k < m ==> IsSpace(s[k])
    ensures SkipSpace(s, i) == SkipSpace(s, m)
    decreases m - i
  {
    if i < m {
      SkipSpaceOver(s, i + 1, m);
    }
  }

  /** Whitespace from `m` to `j` is skipped by the backward scan. */
  lemma {:induction false} SkipSpaceBackOver(s: string, lo: nat, m: nat, j: nat)
    requires lo <= m <= j <= |s|
    requires forall k :: m <= k < j ==> IsSpace(s[k])
    ensures SkipSpaceBack(s, lo, j) == SkipSpaceBack(s, lo, m)
    decreases j - m
  {
    if m < j {
      SkipSpaceBackOver(s, lo, m, j - 1);
    }
  }

  /** A scan that stops inside `x` does not see what follows `x`. */
  lemma {:induction false} SkipSpaceExtend(x: string, y: string, i: nat)
    requires i <= |x| && SkipSpace(x, i) < |x|
    ensures SkipSpace(x + y, i) == SkipSpace(x, i)
    decreases |x| - i
  {
    assert (x + y)[i] == x[i];
    if IsSpace(x[i]) {
      SkipSpaceExtend(x, y, i + 1);
    }
  }

  /** The backward scan from inside `x` does not see what follows `x`. */
  lemma {:induction false} SkipSpaceBackExtend(x: string, y: string, lo: nat, j: nat)
    requires lo <= j <= |x|
    ensures SkipSpaceBack(x + y, lo, j) == SkipSpaceBack(x, lo, j)
    decreases j
  {
    if lo < j {
      assert (x + y)[j - 1] == x[j - 1];
      if IsSpace(x[j - 1]) {
        SkipSpaceBackExtend(x, y, lo, j - 1);
      }
    }
  }

  /** A slice of `x` is the same slice of `p + x`, shifted by `|p|`. */
  lemma SliceAfterPrefix(p: string, x: string, a: nat, b: nat)
    requires a <= b <= |x|
    ensures (p + x)[|p| + a..|p| + b] == x[a..b]
  {
    forall k | 0 <= k < b - a
      ensures (p + x)[|p| + a..|p| + b][k] == x[a..b][k]
    {
      assert (p + x)[|p| + a + k] == x[a + k];
    }
  }

  /** A slice of `x` is the same slice of `x + y`. */
  lemma SliceBeforeSuffix(x: string, y: string, a: nat, b: nat)
    requires a <= b <= |x|
    ensures (x + y)[a..b] == x[a..b]
  {
    forall k | 0 <= k < b - a
      ensures (x + y)[a..b][k] == x[a..b][k]
    {
      assert (x + y)[a + k] == x[a + k];
    }
  }

  /** `s` is its stripped form with whitespace on either side. */
  lemma StripDecompose(s: string) returns (lead: string, trail: string)
    ensures s == lead + Strip(s) + trail
    ensures AllSpace(lead) && AllSpace(trail)
  {
    var a := SkipSpace(s, 0);
    var b := SkipSpaceBack(s, a, |s|);
    lead := s[..a];
    trail := s[b..];
    assert s == s[..a] + s[a..b] + s[b..];
  }

  /** Stripping a string whose ends are not whitespace changes nothing. */
  lemma StrippedFixed(s: string)
    requires Stripped(s)
    ensures Strip(s) == s
  {
  }

  lemma StripIsStripped(s: string)
    ensures Stripped(Strip(s))
  {
  }

  /** `strip` is idempotent. */
  lemma StripIdempotent(s: string)
    ensures Strip(Strip(s)) == Strip(s)
  {
    StripIsStripped(s);
    StrippedFixed(Strip(s));
  }

  /** The forward scan passes over leading whitespace. */
  lemma SkipLeadingSpaces(ws: string, x: string)
    requires AllSpace(ws)
    ensures SkipSpace(ws + x, 0) == |ws| + SkipSpace(x, 0)
  {
    var t := ws + x;
    forall k | 0 <= k < |ws|
      ensures IsSpace(t[k])
    {
      assert t[k] == ws[k];
    }
    SkipSpaceOver(t, 0, |ws|);
    SkipSpaceShift(ws, x, 0);
  }

  /** Leading whitespace makes no difference to `strip`. */
  lemma StripLeadingSpaces(ws: string, x: string)
    requires AllSpace(ws)
    ensures Strip(ws + x) == Strip(x)
  {
    SkipLeadingSpaces(ws, x);
    var a := SkipSpace(x, 0);
    SkipSpaceBackShift(ws, x, a, |x|);
    SliceAfterPrefix(ws, x, a, SkipSpaceBack(x, a, |x|));
  }

  /** Trailing whitespace makes no difference to `strip`. */
  lemma StripTrailingSpaces(x: string, ws: string)
    requires AllSpace(ws)
    ensures Strip(x + ws) == Strip(x)
  {
    var t := x + ws;
    if SkipSpace(x, 0) < |x| {
      SkipSpaceExtend(x, ws, 0);
      var a := SkipSpace(x, 0);
      SkipSpaceBackOver(t, a, |x|, |t|);
      SkipSpaceBackExtend(x, ws, a, |x|);
      SliceBeforeSuffix(x, ws, a, SkipSpaceBack(x, a, |x|));
    } else {
      SkipSpaceOver(t, 0, |x|);
      SkipSpaceShift(x, ws, 0);
      SkipSpaceOver(ws, 0, |ws|);
    }
  }

  /** `strip` removes only whitespace, so it keeps every other character's count. */
  lemma StripKeepsCount(s: string, c: char)
    requires !IsSpace(c)
    ensures multiset(Strip(s))[c] == multiset(s)[c]
  {
    var lead, trail := StripDecompose(s);
    assert multiset(s) == multiset(lead) + multiset(Strip(s)) + multiset(trail) by {
      assert s == lead + Strip(s) + trail;
    }
    assert c !in lead && c !in trail;
  }

  // ---------------------------------------------------------------------------
  // find, split and join on one separator character

  /** `s.index(c)`: the position of the first `c` in `s`. */
  function IndexOf(s: string, c: char): (i: nat)
    requires c in s
    ensures i < |s| && s[i] == c && c !in s[..i]
  {
    if s[0] == c then 0 else 1 + IndexOf(s[1..], c)
  }

  /** The text before the first `c`, or all of `s` when it holds no `c`. */
  function UpTo(s: string, c: char): string {
    if c in s then s[..IndexOf(s, c)] else s
  }

  /** The text after the first `c`. */
  function After(s: string, c: char): string
    requires c in s
  {
    s[IndexOf(s, c) + 1..]
  }

  /** `s.split(c)`: the segments between the occurrences of `c`. */
  function Split(s: string, c: char): (parts: seq<string>)
    ensures |parts| == multiset(s)[c] + 1
    ensures forall i :: 0 <= i < |parts| ==> c !in parts[i]
    decreases |s|
  {
    if c in s then
      var i := IndexOf(s, c);
      assert s == s[..i] + [c] + s[i + 1..];
      assert multiset(s)[c] == multiset(s[..i])[c] + 1 + multiset(s[i + 1..])[c];
      [UpTo(s, c)] + Split(After(s, c), c)
    else
      [s]
  }

  /** `c.join(parts)` */
  function Join(parts: seq<string>, c: char): string
    requires |parts| >= 1
  {
    if |parts| == 1 then parts[0] else parts[0] + [c] + Join(parts[1..], c)
  }

  /** Joining the segments of a split gives back the original string. */
  lemma {:induction false} JoinSplit(s: string, c: char)
    ensures Join(Split(s, c), c) == s
    decreases |s|
  {
    if c in s {
      var i := IndexOf(s, c);
      JoinSplit(After(s, c), c);
      assert Split(s, c)[1..] == Split(After(s, c), c);
      assert s == s[..i] + [c] + s[i + 1..];
    }
  }

  lemma IndexOfAfterPrefix(a: string, b: string, c: char)
    requires c !in a && c in b
    ensures IndexOf(a + b, c) == |a| + IndexOf(b, c)
  {
    var s := a + b;
    var k := IndexOf(s, c);
    var j := IndexOf(b, c);
    assert s[|a| + j] == c;
  }

  /** A prefix free of `c` is carried over by `UpTo` and skipped by `After`. */
  lemma UpToAfterPrefix(a: string, b: string, c: char)
    requires c !in a
    ensures UpTo(a + b, c) == a + UpTo(b, c)
    ensures c in b ==> c in a + b && After(a + b, c) == After(b, c)
  {
    if c in b {
      IndexOfAfterPrefix(a, b, c);
      var j := IndexOf(b, c);
      assert (a + b)[..|a| + j] == a + b[..j];
      assert (a + b)[|a| + j + 1..] == b[j + 1..];
    } else {
      assert c !in a + b;
    }
  }

  lemma SplitFirst(a: string, b: string, c: char)
    requires c !in a
    ensures Split(a + [c] + b, c) == [a] + Split(b, c)
  {
    var s := a + [c] + b;
    UpToAfterPrefix(a, [c] + b, c);
    assert UpTo([c] + b, c) == [];
    assert After([c] + b, c) == b;
    assert s == a + ([c] + b);
  }

  /** A suffix appended after the first `c` changes neither `IndexOf` nor `UpTo`. */
  lemma {:induction false} UpToAfterSuffix(a: string, b: string, c: char)
    requires c in a
    ensures c in a + b && IndexOf(a + b, c) == IndexOf(a, c)
    ensures UpTo(a + b, c) == UpTo(a, c)
    ensures After(a + b, c) == After(a, c) + b
  {
    assert (a + b)[0] == a[0];
    if a[0] != c {
      assert (a + b)[1..] == a[1..] + b;
      UpToAfterSuffix(a[1..], b, c);
    }
  }

  /** A string that holds a non-space character `c` is whitespace, then its
      stripped form, then whitespace; `c` lies in the stripped part. */
  lemma StripAround(x: string, c: char) returns (lead: string, trail: string)
    requires !IsSpace(c)
    ensures x == lead + (Strip(x) + trail) && AllSpace(lead) && AllSpace(trail)
    ensures c !in lead && c !in trail
    ensures c in x <==> c in Strip(x)
  {
    lead, trail := StripDecompose(x);
    assert x == lead + (Strip(x) + trail);
    assert c in x ==> c in Strip(x) by {
      if c in x {
        var i := IndexOf(x, c);
      }
    }
  }

  /** Stripping first does not change what a later strip of the text before `c` gives. */
  lemma StripUpToStrip(x: string, c: char)
    requires !IsSpace(c)
    ensures Strip(UpTo(Strip(x), c)) == Strip(UpTo(x, c))
  {
    var m := Strip(x);
    var lead, trail := StripAround(x, c);
    UpToAfterPrefix(lead, m + trail, c);
    if c in m {
      UpToAfterSuffix(m, trail, c);
      StripLeadingSpaces(lead, UpTo(m, c));
    } else {
      StripIdempotent(x);
    }
  }

  /** Stripping first does not change what a later strip of the text after the first `c` gives. */
  lemma StripAfterStrip(x: string, c: char)
    requires !IsSpace(c) && c in x
    ensures c in Strip(x)
    ensures Strip(After(Strip(x), c)) == Strip(After(x, c))
  {
    var m := Strip(x);
    var lead, trail := StripAround(x, c);
    UpToAfterPrefix(lead, m + trail, c);
    UpToAfterSuffix(m, trail, c);
    StripTrailingSpaces(After(m, c), trail);
  }

  // ---------------------------------------------------------------------------
  // replace by the empty string

  /** `s.replace(c, '')`: every `c` dropped, everything else kept in order. */
  function RemoveChar(s: string, c: char): (r: string)
    ensures c !in r
  {
    if s == [] then []
    else if s[0] == c then RemoveChar(s[1..], c)
    else [s[0]] + RemoveChar(s[1..], c)
  }

  /** Every other character keeps its number of occurrences. */
  lemma {:induction false} RemoveCharKeepsCount(s: string, c: char, d: char)
    requires d != c
    ensures multiset(RemoveChar(s, c))[d] == multiset(s)[d]
  {
    if s != [] {
      assert s == [s[0]] + s[1..];
      RemoveCharKeepsCount(s[1..], c, d);
    }
  }

  /** Removing a character commutes with concatenation, so the kept characters stay in order. */
  lemma {:induction false} RemoveCharConcat(a: string, b: string, c: char)
    ensures RemoveChar(a + b, c) == RemoveChar(a, c) + RemoveChar(b, c)
  {
    if a != [] {
      assert (a + b)[0] == a[0];
      assert (a + b)[1..] == a[1..] + b;
      RemoveCharConcat(a[1..], b, c);
    } else {
      assert a + b == b;
    }
  }

  /** A string without `c` is left alone. */
  lemma {:induction false} RemoveCharAbsent(s: string, c: char)
    requires c !in s
    ensures RemoveChar(s, c) == s
  {
    if s != [] {
      RemoveCharAbsent(s[1..], c);
    }
  }

  lemma RemoveCharIdempotent(s: string, c: char)
    ensures RemoveChar(RemoveChar(s, c), c) == RemoveChar(s, c)
  {
    RemoveCharAbsent(RemoveChar(s, c), c);
  }

  /** `p` occurs in `s` starting at position `k`. */
  predicate OccursAt(s: string, p: string, k: nat) {
    k + |p| <= |s| && s[k..k + |p|] == p
  }

  /** `s.replace(p, '')` for a two-character `p`: Python scans left to right and drops
      each non-overlapping occurrence. */
  function RemoveAll(s: string, p: string): (r: string)
    requires |p| == 2
    ensures |r| <= |s|
  {
    if |s| < 2 then s
    else if s[..2] == p then RemoveAll(s[2..], p)
    else [s[0]] + RemoveAll(s[1..], p)
  }

  /** A character outside `p` keeps its number of occurrences. */
  lemma {:induction false} RemoveAllKeepsCount(s: string, p: string, d: char)
    requires |p| == 2 && d !in p
    ensures multiset(RemoveAll(s, p))[d] == multiset(s)[d]
  {
    if |s| >= 2 {
      if s[..2] == p {
        assert s == s[..2] + s[2..];
        RemoveAllKeepsCount(s[2..], p, d);
      } else {
        assert s == [s[0]] + s[1..];
        RemoveAllKeepsCount(s[1..], p, d);
      }
    }
  }

  /** Text that does not start `p` passes through unchanged. */
  lemma {:induction false} RemoveAllKeepsPrefix(a: string, b: string, p: string)
    requires |p| == 2 && p[0] !in a
    ensures RemoveAll(a + b, p) == a + RemoveAll(b, p)
  {
    if a != [] {
      assert (a + b)[0] == a[0];
      assert (a + b)[1..] == a[1..] + b;
      RemoveAllKeepsPrefix(a[1..], b, p);
    } else {
      assert a + b == b;
    }
  }

  /** Without an occurrence of `p`, the string is left alone. */
  lemma {:induction false} RemoveAllAbsent(s: string, p: string)
    requires |p| == 2
    requires forall k :: 0 <= k < |s| ==> !OccursAt(s, p, k)
    ensures RemoveAll(s, p) == s
  {
    if |s| >= 2 {
      assert !OccursAt(s, p, 0);
      forall k | 0 <= k < |s| - 1
        ensures !OccursAt(s[1..], p, k)
      {
        if k + 2 <= |s| - 1 {
          assert !OccursAt(s, p, k + 1);
          assert s[1..][k..k + 2] == s[k + 1..k + 3];
        }
      }
      RemoveAllAbsent(s[1..], p);
    }
  }

  /** With an occurrence of `p`, something is removed. */
  lemma {:induction false} RemoveAllShrinks(s: string, p: string, k: nat)
    requires |p| == 2 && OccursAt(s, p, k)
    ensures |RemoveAll(s, p)| < |s|
  {
    if s[..2] != p {
      assert k > 0;
      assert s[1..][k - 1..k + 1] == s[k..k + 2];
      RemoveAllShrinks(s[1..], p, k - 1);
    }
  }
}
