/**
 * Character-offset slicing helpers on strings (Common/String.swift).
 *
 * A Swift `String.Index` is modelled by the character offset it denotes, and
 * a string by its sequence of characters. Swift traps on an offset outside
 * the string and on a range whose lower bound exceeds its upper bound; both
 * are preconditions here.
 */
module Strings {

  /** A half-open range of string indices, `lower ..< upper`. */
  datatype IndexRange = IndexRange(lower: nat, upper: nat)

  /** The index `n` characters past the start of `s` (`index(offsetBy:)`). */
  function IndexOffsetBy(s: string, n: nat): (i: nat)
    requires n <= |s|
    ensures i <= |s|
    ensures |s[..i]| == n
  {
    n
  }

  /** The index range covering the offsets `start ..< end` (`indicesOf(start:end:)`). */
  function IndicesOf(s: string, start: nat, end: nat): (r: IndexRange)
    requires start <= end <= |s|
    ensures r.lower <= r.upper <= |s|
    ensures |s[..r.lower]| == start
    ensures |s[r.lower..r.upper]| == end - start
  {
    IndexRange(IndexOffsetBy(s, start), IndexOffsetBy(s, end))
  }

  /** The characters of `s` inside `r` (Foundation's `substring(with:)`). */
  function SubstringWith(s: string, r: IndexRange): (t: string)
    requires r.lower <= r.upper <= |s|
    ensures |t| == r.upper - r.lower
    ensures forall k :: 0 <= k < |t| ==> t[k] == s[r.lower + k]
  {
    s[r.lower..r.upper]
  }

  /** The characters of `s` from `offset` to the end (`substring(fromOffset:)`). */
  function SubstringFrom(s: string, offset: nat): (t: string)
    requires offset <= |s|
    ensures |t| == |s| - offset
    ensures forall k :: 0 <= k < |t| ==> t[k] == s[offset + k]
  {
    s[IndexOffsetBy(s, offset)..]
  }

  /** The first `offset` characters of `s` (`substring(toOffset:)`). */
  function SubstringTo(s: string, offset: nat): (t: string)
    requires offset <= |s|
    ensures |t| == offset
    ensures forall k :: 0 <= k < |t| ==> t[k] == s[k]
  {
    s[..IndexOffsetBy(s, offset)]
  }

  /** `s` with the characters inside `r` replaced by `replacement`
      (Foundation's `replacingCharacters(in:with:)`). */
  function ReplacingCharacters(s: string, r: IndexRange, replacement: string): (t: string)
    requires r.lower <= r.upper <= |s|
    ensures |t| == |s| - (r.upper - r.lower) + |replacement|
    ensures t[..r.lower] == s[..r.lower]
    ensures t[r.lower..r.lower + |replacement|] == replacement
    ensures t[r.lower + |replacement|..] == s[r.upper..]
  {
    s[..r.lower] + replacement + s[r.upper..]
  }

  /** The concatenation of `parts` in order, with no separator (`joined()`). */
  function Joined(parts: seq<string>): string
  {
    if |parts| == 0 then "" else parts[0] + Joined(parts[1..])
  }

  /** Cutting a string at any offset and gluing the halves back gives the string. */
  lemma SubstringToFromRoundTrip(s: string, offset: nat)
    requires offset <= |s|
    ensures SubstringTo(s, offset) + SubstringFrom(s, offset) == s
  {
  }

  /** Concatenation regroups. */
  lemma Regroup3(a: string, b: string, c: string)
    ensures a + (b + c) == a + b + c
  {
  }

  /** Concatenation regroups. */
  lemma Regroup5(a: string, b: string, c: string, d: string, f: string)
    ensures a + b + (c + d + f) == a + b + c + d + f
  {
  }

  /** A sequence is its parts before `k`, its `k`-th element, and the rest. */
  lemma SplitAt<T>(parts: seq<T>, k: nat)
    requires k < |parts|
    ensures parts == parts[..k] + ([parts[k]] + parts[k + 1..])
  {
  }

  /** Slicing a suffix `p[i..]` around its `k`-th element. */
  lemma SlicesOfSuffix<T>(p: seq<T>, i: nat, k: nat)
    requires i + k < |p|
    ensures p[i..][..k] == p[i..i + k]
    ensures p[i..][k] == p[i + k]
    ensures p[i..][k + 1..] == p[i + k + 1..]
  {
  }

  /** Slicing a prefix `p[..e]` around its `s`-th element. */
  lemma SlicesOfPrefix<T>(p: seq<T>, e: nat, s: nat)
    requires s < e <= |p|
    ensures p[..e][..s] == p[..s]
    ensures p[..e][s] == p[s]
    ensures p[..e][s + 1..] == p[s + 1..e]
  {
  }

  /** Joining distributes over concatenation of the parts. */
  lemma {:induction false} JoinedAppend(a: seq<string>, b: seq<string>)
    ensures Joined(a + b) == Joined(a) + Joined(b)
  {
    if |a| == 0 {
      assert a + b == b;
    } else {
      assert (a + b)[1..] == a[1..] + b;
      JoinedAppend(a[1..], b);
      Regroup3(a[0], Joined(a[1..]), Joined(b));
    }
  }

  /** Joining a part in front of others puts its text in front. */
  lemma JoinedCons(x: string, rest: seq<string>)
    ensures Joined([x] + rest) == x + Joined(rest)
  {
    assert ([x] + rest)[1..] == rest;
  }

  /** The joined text splits around any one part. */
  lemma {:induction false} JoinedAround(parts: seq<string>, k: nat)
    requires k < |parts|
    ensures Joined(parts) == Joined(parts[..k]) + parts[k] + Joined(parts[k + 1..])
  {
    var before, x, after := parts[..k], parts[k], parts[k + 1..];
    SplitAt(parts, k);
    JoinedAppend(before, [x] + after);
    JoinedCons(x, after);
    Regroup3(Joined(before), x, Joined(after));
  }

  /** The joined text of the parts from `i` on splits around part `e >= i`. */
  lemma JoinedSuffixAround(p: seq<string>, i: nat, e: nat)
    requires i <= e < |p|
    ensures Joined(p[i..]) == Joined(p[i..e]) + p[e] + Joined(p[e + 1..])
  {
    var tail, k := p[i..], e - i;
    JoinedAround(tail, k);
    SlicesOfSuffix(p, i, k);
    assert i + k == e;
    assert tail[..k] == p[i..e];
    assert tail[k + 1..] == p[e + 1..];
  }

  /** The joined text splits around two parts `s < e`. */
  lemma JoinedAroundTwo(p: seq<string>, s: nat, e: nat)
    requires s < e < |p|
    ensures Joined(p) == Joined(p[..s]) + p[s] + Joined(p[s + 1..e]) + p[e] + Joined(p[e + 1..])
  {
    JoinedAround(p, s);
    JoinedSuffixAround(p, s + 1, e);
    Regroup5(Joined(p[..s]), p[s], Joined(p[s + 1..e]), p[e], Joined(p[e + 1..]));
  }

  /** The joined text of the parts before `e` splits around part `s < e`. */
  lemma JoinedPrefixAround(p: seq<string>, s: nat, e: nat)
    requires s < e <= |p|
    ensures Joined(p[..e]) == Joined(p[..s]) + p[s] + Joined(p[s + 1..e])
  {
    JoinedAround(p[..e], s);
    SlicesOfPrefix(p, e, s);
  }
}
