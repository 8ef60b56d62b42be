/**
 The parts of Go's `strings` package that the store relies on: substring
 search (used to discover the application directory), upper-casing of the
 application name and splitting a stored line at `=`.
 */
module Strings {

  /** `sub` sits in `s` starting at index `i`. */
  predicate OccursAt(s: string, sub: string, i: nat)
  {
    i + |sub| <= |s| && s[i..i + |sub|] == sub
  }

  /** strings.Contains: `sub` occurs in `s` as a contiguous block. */
  predicate Contains(s: string, sub: string)
    ensures Contains(s, sub) <==> exists i: nat :: i <= |s| && OccursAt(s, sub, i)
    decreases |s|
  {
    if sub <= s then
      assert OccursAt(s, sub, 0);
      true
    else if s == [] then false
    else
      var found := Contains(s[1..], sub);
      assert !OccursAt(s, sub, 0);
      assert forall i: nat | 1 <= i <= |s| :: OccursAt(s, sub, i) == OccursAt(s[1..], sub, i - 1);
      assert forall j: nat | j < |s| :: OccursAt(s[1..], sub, j) == OccursAt(s, sub, j + 1);
      found
  }

  /** Whatever surrounds it, a block is found inside the string it was put in. */
  lemma {:induction false} ContainsMiddle(p: string, sub: string, q: string)
    ensures Contains(p + sub + q, sub)
  {
    if p == [] {
      assert p + sub + q == sub + q;
      assert sub <= sub + q;
    } else {
      assert (p + sub + q)[1..] == p[1..] + sub + q;
      ContainsMiddle(p[1..], sub, q);
    }
  }

  /** The ASCII part of unicode.ToTitle: a lower-case letter becomes upper case. */
  function UpperChar(c: char): (u: char)
    ensures 'a' <= c <= 'z' ==> 'A' <= u <= 'Z' && u as int == c as int - 32
    ensures !('a' <= c <= 'z') ==> u == c
  {
    if 'a' <= c <= 'z' then (c as int - 32) as char else c
  }

  /** strings.ToTitle restricted to ASCII: every character mapped through UpperChar. */
  function ToTitle(s: string): (t: string)
    ensures |t| == |s|
    ensures forall i :: 0 <= i < |s| ==> t[i] == UpperChar(s[i])
  {
    if s == [] then [] else [UpperChar(s[0])] + ToTitle(s[1..])
  }

  /** Normalising a name twice gives the same name as normalising it once. */
  lemma ToTitleIdempotent(s: string)
    ensures ToTitle(ToTitle(s)) == ToTitle(s)
  {
  }

  /** The index of the first `c` in `s`, or -1 when `s` has none. */
  function IndexOf(s: string, c: char): (r: int)
    ensures -1 <= r < |s|
    ensures r >= 0 ==> s[r] == c && c !in s[..r]
    ensures r < 0 <==> c !in s
  {
    if s == [] then -1
    else if s[0] == c then 0
    else
      var r := IndexOf(s[1..], c);
      assert s[1..][..if r < 0 then 0 else r] == s[1..if r < 0 then 1 else r + 1];
      if r < 0 then -1 else r + 1
  }

  /** strings.Join: the parts with `sep` between neighbours. */
  function JoinWith(parts: seq<string>, sep: char): string
  {
    if parts == [] then ""
    else if |parts| == 1 then parts[0]
    else parts[0] + [sep] + JoinWith(parts[1..], sep)
  }

  /**
   strings.Split with a one-character separator: the pieces between
   successive occurrences of `sep`. There is always at least one piece, and
   exactly one when `sep` does not occur; joining the pieces back gives `s`.
   */
  function Split(s: string, sep: char): (parts: seq<string>)
    ensures |parts| >= 1
    ensures |parts| == 1 <==> sep !in s
    ensures forall i :: 0 <= i < |parts| ==> sep !in parts[i]
    ensures JoinWith(parts, sep) == s
    decreases |s|
  {
    var i := IndexOf(s, sep);
    if i < 0 then [s]
    else
      var rest := Split(s[i + 1..], sep);
      assert s == s[..i] + [sep] + s[i + 1..];
      [s[..i]] + rest
  }

  /** Splitting at the first `sep`: the text before it is the first piece, the rest is split on. */
  lemma SplitAtFirstSep(k: string, rest: string, sep: char)
    requires sep !in k
    ensures Split(k + [sep] + rest, sep) == [k] + Split(rest, sep)
  {
    var s := k + [sep] + rest;
    assert s[|k|] == sep;
    assert IndexOf(s, sep) == |k|;
    assert s[..|k|] == k;
    assert s[|k| + 1..] == rest;
  }

  /** A key and a value free of `sep`, joined by `sep`, split back into exactly those two. */
  lemma SplitPair(k: string, v: string, sep: char)
    requires sep !in k && sep !in v
    ensures Split(k + [sep] + v, sep) == [k, v]
  {
    SplitAtFirstSep(k, v, sep);
  }

}
