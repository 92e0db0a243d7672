/** The pieces of Rust's `Option` and `str` API that the parsers are written with. */
module Strings {

  datatype Option<+T> = None | Some(value: T) {
    /** `unwrap_or` */
    function GetOr(default: T): T {
      match this
      case Some(v) => v
      case None => default
    }
  }

  function StripPrefix(s: string, p: string): (r: Option<string>)
    ensures r.Some? <==> p <= s
    ensures r.Some? ==> s == p + r.value
  {
    if p <= s then Some(s[|p|..]) else None
  }

  predicate HasSuffix(s: string, p: string) {
    |p| <= |s| && s[|s| - |p|..] == p
  }

  function StripSuffix(s: string, p: string): (r: Option<string>)
    ensures r.Some? <==> HasSuffix(s, p)
    ensures r.Some? ==> s == r.value + p
  {
    if HasSuffix(s, p) then Some(s[..|s| - |p|]) else None
  }

  predicate OccursAt(s: string, p: string, i: nat) {
    i + |p| <= |s| && s[i..i + |p|] == p
  }

  /** `str::contains` for a string pattern. */
  predicate Contains(s: string, p: string) {
    exists i :: 0 <= i <= |s| && OccursAt(s, p, i)
  }

  lemma ContainsPart(a: string, p: string, b: string)
    ensures Contains(a + p + b, p)
  {
    assert (a + p + b)[|a|..|a| + |p|] == p;
    assert OccursAt(a + p + b, p, |a|);
  }

  /** A text contains what it can be cut around, and nothing else. */
  lemma ContainsIsPart(s: string, p: string)
    ensures Contains(s, p) <==> exists a, b :: s == a + p + b
  {
    if Contains(s, p) {
      var i :| 0 <= i <= |s| && OccursAt(s, p, i);
      assert s == s[..i] + p + s[i + |p|..];
    }
    if exists a, b :: s == a + p + b {
      var a, b :| s == a + p + b;
      ContainsPart(a, p, b);
    }
  }

  lemma SuffixIsEnd(s: string, p: string)
    ensures HasSuffix(s, p) <==> exists a :: s == a + p
  {
    if HasSuffix(s, p) {
      assert s == s[..|s| - |p|] + p;
    }
  }

  /** `str::split_once` for a character: splits at the FIRST occurrence. */
  function SplitOnce(s: string, c: char): (r: Option<(string, string)>)
    ensures r.Some? <==> c in s
    ensures r.Some? ==> s == r.value.0 + [c] + r.value.1 && c !in r.value.0
  {
    if s == [] then None
    else if s[0] == c then Some(([], s[1..]))
    else
      match SplitOnce(s[1..], c)
      case None => None
      case Some(parts) => Some(([s[0]] + parts.0, parts.1))
  }

  /** The split is the only one with no separator on its left. */
  lemma {:induction false} SplitOnceOf(left: string, c: char, right: string)
    requires c !in left
    ensures SplitOnce(left + [c] + right, c) == Some((left, right))
  {
    var s := left + [c] + right;
    if left == [] {
      assert s[1..] == right;
    } else {
      assert s[1..] == left[1..] + [c] + right;
      SplitOnceOf(left[1..], c, right);
      assert left == [left[0]] + left[1..];
    }
  }

  /** Equal concatenations with equally long left parts agree part by part. */
  lemma SameSplit<T>(a: seq<T>, b: seq<T>, x: seq<T>, y: seq<T>)
    requires a + b == x + y && |a| == |x|
    ensures a == x && b == y
  {
    assert a == (a + b)[..|a|] && x == (x + y)[..|x|];
    assert b == (a + b)[|a|..] && y == (x + y)[|x|..];
  }
}
