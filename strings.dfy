/**
 * The Python string operations the engine relies on: `startswith`, `in`,
 * `split(sep)`, `sep.join(...)`, `replace(old, new)` and `str(int)`.
 */
module Strings {

  /** Python `s.startswith(p)`. */
  predicate StartsWith(s: string, p: string) {
    |p| <= |s| && s[..|p|] == p
  }

  /** Python `p in s` on strings: `p` occurs somewhere in `s`. */
  predicate Contains(s: string, p: string)
    decreases |s|
  {
    StartsWith(s, p) || (|s| > 0 && Contains(s[1..], p))
  }

  /**
   * Python `s.split(sep)` for a non-empty separator: occurrences are taken
   * left to right without overlapping, and there is always one piece more
   * than there are separators.
   */
  function SplitOn(s: string, sep: string): (pieces: seq<string>)
    requires |sep| > 0
    ensures |pieces| >= 1
    decreases |s|
  {
    if s == [] then [[]]
    else if StartsWith(s, sep) then [[]] + SplitOn(s[|sep|..], sep)
    else
      var rest := SplitOn(s[1..], sep);
      [[s[0]] + rest[0]] + rest[1..]
  }

  /** Python `sep.join(pieces)`. */
  function JoinWith(pieces: seq<string>, sep: string): string {
    if |pieces| == 0 then []
    else if |pieces| == 1 then pieces[0]
    else pieces[0] + sep + JoinWith(pieces[1..], sep)
  }

  /** Python `s.replace(old, new)`: every occurrence, left to right, without overlapping. */
  function ReplaceAll(s: string, pat: string, repl: string): string
    requires |pat| > 0
    decreases |s|
  {
    if s == [] then []
    else if StartsWith(s, pat) then repl + ReplaceAll(s[|pat|..], pat, repl)
    else [s[0]] + ReplaceAll(s[1..], pat, repl)
  }

  lemma JoinConsHead(c: char, rest: seq<string>, sep: string)
    requires |rest| >= 1
    ensures JoinWith([[c] + rest[0]] + rest[1..], sep) == [c] + JoinWith(rest, sep)
  {
    var ps := [[c] + rest[0]] + rest[1..];
    assert ps[1..] == rest[1..];
  }

  lemma JoinEmptyHead(rest: seq<string>, sep: string)
    requires |rest| >= 1
    ensures JoinWith([[]] + rest, sep) == sep + JoinWith(rest, sep)
  {
    assert ([[]] + rest)[1..] == rest;
  }

  /** Splitting and joining again with the same separator gives back the text. */
  lemma {:induction false} JoinSplit(s: string, sep: string)
    requires |sep| > 0
    ensures JoinWith(SplitOn(s, sep), sep) == s
    decreases |s|
  {
    if s == [] {
    } else if StartsWith(s, sep) {
      JoinSplit(s[|sep|..], sep);
      JoinEmptyHead(SplitOn(s[|sep|..], sep), sep);
      assert s == sep + s[|sep|..];
    } else {
      JoinSplit(s[1..], sep);
      JoinConsHead(s[0], SplitOn(s[1..], sep), sep);
      assert s == [s[0]] + s[1..];
    }
  }

  /** `replace` is `new.join(s.split(old))`: the text between occurrences is kept, each occurrence becomes `new`. */
  lemma {:induction false} ReplaceIsJoinOfSplit(s: string, pat: string, repl: string)
    requires |pat| > 0
    ensures ReplaceAll(s, pat, repl) == JoinWith(SplitOn(s, pat), repl)
    decreases |s|
  {
    if s == [] {
    } else if StartsWith(s, pat) {
      ReplaceIsJoinOfSplit(s[|pat|..], pat, repl);
      JoinEmptyHead(SplitOn(s[|pat|..], pat), repl);
    } else {
      ReplaceIsJoinOfSplit(s[1..], pat, repl);
      JoinConsHead(s[0], SplitOn(s[1..], pat), repl);
    }
  }

  lemma {:induction false} FirstPieceIsPrefix(s: string, sep: string)
    requires |sep| > 0
    ensures StartsWith(s, SplitOn(s, sep)[0])
    decreases |s|
  {
    if s == [] {
    } else if StartsWith(s, sep) {
    } else {
      FirstPieceIsPrefix(s[1..], sep);
      var p := SplitOn(s[1..], sep)[0];
      assert s[..|p| + 1] == [s[0]] + s[1..][..|p|];
    }
  }

  lemma PrefixOfPrefix(s: string, q: string, p: string)
    requires StartsWith(s, q) && StartsWith(q, p)
    ensures StartsWith(s, p)
  {
    assert s[..|p|] == q[..|p|];
  }

  /** No piece produced by `split` contains the separator. */
  lemma {:induction false} PiecesAvoidSeparator(s: string, sep: string)
    requires |sep| > 0
    ensures forall i :: 0 <= i < |SplitOn(s, sep)| ==> !Contains(SplitOn(s, sep)[i], sep)
    decreases |s|
  {
    if s == [] {
      assert !StartsWith([], sep);
    } else if StartsWith(s, sep) {
      PiecesAvoidSeparator(s[|sep|..], sep);
      var rest := SplitOn(s[|sep|..], sep);
      assert !StartsWith([], sep);
      forall i | 0 <= i < |[[]] + rest| ensures !Contains(([[]] + rest)[i], sep) {
        if i > 0 { assert ([[]] + rest)[i] == rest[i - 1]; }
      }
    } else {
      PiecesAvoidSeparator(s[1..], sep);
      FirstPieceIsPrefix(s[1..], sep);
      var rest := SplitOn(s[1..], sep);
      var head := [s[0]] + rest[0];
      assert head[1..] == rest[0];
      assert StartsWith(s, head) by {
        assert s[..|head|] == [s[0]] + s[1..][..|rest[0]|];
      }
      if StartsWith(head, sep) {
        PrefixOfPrefix(s, head, sep);
        assert false;
      }
      assert !Contains(head, sep);
      var ps := [head] + rest[1..];
      forall i | 0 <= i < |ps| ensures !Contains(ps[i], sep) {
        if i > 0 { assert ps[i] == rest[i]; }
      }
    }
  }

  /** A text in which `old` does not occur is left unchanged by `replace`. */
  lemma {:induction false} ReplaceAbsent(s: string, pat: string, repl: string)
    requires |pat| > 0 && !Contains(s, pat)
    ensures ReplaceAll(s, pat, repl) == s
    decreases |s|
  {
    if s != [] {
      ReplaceAbsent(s[1..], pat, repl);
      assert s == [s[0]] + s[1..];
    }
  }

  /** The character for a decimal digit. */
  function Digit(d: nat): (c: char)
    requires d < 10
    ensures '0' <= c <= '9'
  {
    ('0' as int + d) as char
  }

  /** Python `str(n)` for a natural number: its decimal digits. */
  function NatToString(n: nat): (s: string)
    ensures |s| >= 1
    ensures forall i :: 0 <= i < |s| ==> '0' <= s[i] <= '9'
  {
    if n < 10 then [Digit(n)] else NatToString(n / 10) + [Digit(n % 10)]
  }

  /** Python `str(i)`: a minus sign before the digits of a negative number. */
  function IntToString(i: int): string {
    if i < 0 then "-" + NatToString(-i) else NatToString(i)
  }

  /** Different numbers print differently. */
  lemma {:induction false} NatToStringInjective(a: nat, b: nat)
    requires NatToString(a) == NatToString(b)
    ensures a == b
  {
    if a >= 10 && b >= 10 {
      var sa, sb := NatToString(a / 10), NatToString(b / 10);
      assert NatToString(a) == sa + [Digit(a % 10)];
      assert NatToString(b) == sb + [Digit(b % 10)];
      assert |sa| == |sb|;
      assert sa == NatToString(a)[..|sa|] && sb == NatToString(b)[..|sb|];
      NatToStringInjective(a / 10, b / 10);
      assert Digit(a % 10) == NatToString(a)[|sa|];
    }
  }
}
