/**
 * The helpers of obasparql/utils.py: the named-graph IRI, the fresh
 * identifier source and the camelCase to snake_case conversion used to
 * alias context terms.
 */
module Utils {
  import opened Strings

  /** `generate_uri(graph_base, username)`: the base followed by the user name, nothing added or lost. */
  function GenerateUri(graphBase: string, username: string): (r: string)
    ensures StartsWith(r, graphBase) && r[|graphBase|..] == username
  {
    graphBase + username
  }

  /**
   * The n-th identifier handed out by `generate_new_id` (a random uuid4 in
   * the source). Only its freshness matters to the engine: different draws
   * give different identifiers.
   */
  function FreshId(n: nat): string {
    NatToString(n)
  }

  lemma FreshIdInjective(a: nat, b: nat)
    requires FreshId(a) == FreshId(b)
    ensures a == b
  {
    NatToStringInjective(a, b);
  }

  predicate IsUpper(c: char) { 'A' <= c <= 'Z' }

  predicate IsLower(c: char) { 'a' <= c <= 'z' }

  predicate IsLowerOrDigit(c: char) { IsLower(c) || '0' <= c <= '9' }

  /** Length of the run of lower-case letters that `s` starts with (the greedy `[a-z]+`). */
  function LowerRun(s: string): (n: nat)
    ensures n <= |s|
  {
    if s != [] && IsLower(s[0]) then 1 + LowerRun(s[1..]) else 0
  }

  /**
   * `re.sub('(.)([A-Z][a-z]+)', r'\1_\2', s)`: scanning left to right, a
   * character other than a newline followed by a capitalised word gets an
   * underscore after it; the scan resumes after the whole word.
   */
  function SubCapitalWord(s: string): string
    decreases |s|
  {
    if |s| < 3 then s
    else if s[0] != '\n' && IsUpper(s[1]) && IsLower(s[2]) then
      var e := 2 + LowerRun(s[2..]);
      [s[0], '_'] + s[1..e] + SubCapitalWord(s[e..])
    else [s[0]] + SubCapitalWord(s[1..])
  }

  /**
   * `re.sub('([a-z0-9])([A-Z])', r'\1_\2', s)`: a lower-case letter or digit
   * followed by an upper-case letter gets an underscore between them; the
   * scan resumes after the pair.
   */
  function SubLowerUpper(s: string): string
    decreases |s|
  {
    if |s| < 2 then s
    else if IsLowerOrDigit(s[0]) && IsUpper(s[1]) then [s[0], '_', s[1]] + SubLowerUpper(s[2..])
    else [s[0]] + SubLowerUpper(s[1..])
  }

  function LowerChar(c: char): char {
    if IsUpper(c) then (c as int + 32) as char else c
  }

  /** `str.lower()` on ASCII letters. */
  function Lower(s: string): string {
    seq(|s|, i requires 0 <= i < |s| => LowerChar(s[i]))
  }

  /** `convert_snake(name)`. */
  function ConvertSnake(name: string): string {
    Lower(SubLowerUpper(SubCapitalWord(name)))
  }

  // ---------------------------------------------------------------------
  // Where the underscores go. `Expand(s, gaps)` is `s` with an underscore
  // after `s[i]` wherever `gaps[i]` holds.

  function Expand(s: string, gaps: seq<bool>): string
    requires |gaps| == |s|
  {
    if s == [] then []
    else [s[0]] + (if gaps[0] then "_" else "") + Expand(s[1..], gaps[1..])
  }

  function Falses(n: nat): (g: seq<bool>)
    ensures |g| == n && forall i :: 0 <= i < n ==> !g[i]
  {
    seq(n, i => false)
  }

  /** The gaps the first substitution fills, found by the same left-to-right scan. */
  function CapitalWordGaps(s: string): (g: seq<bool>)
    ensures |g| == |s|
    decreases |s|
  {
    if |s| < 3 then Falses(|s|)
    else if s[0] != '\n' && IsUpper(s[1]) && IsLower(s[2]) then
      var e := 2 + LowerRun(s[2..]);
      [true] + Falses(e - 1) + CapitalWordGaps(s[e..])
    else [false] + CapitalWordGaps(s[1..])
  }

  /** The first substitution only puts an underscore before a capital letter. */
  lemma {:induction false} CapitalWordGapsBeforeUpper(s: string, i: int)
    requires 0 <= i < |s| && CapitalWordGaps(s)[i]
    ensures i + 1 < |s| && IsUpper(s[i + 1])
    decreases |s|
  {
    if |s| < 3 {
    } else if s[0] != '\n' && IsUpper(s[1]) && IsLower(s[2]) {
      var e := 2 + LowerRun(s[2..]);
      var rest := CapitalWordGaps(s[e..]);
      assert CapitalWordGaps(s) == [true] + Falses(e - 1) + rest;
      if i >= e {
        assert rest[i - e];
        CapitalWordGapsBeforeUpper(s[e..], i - e);
        assert s[i + 1] == s[e..][i - e + 1];
      }
    } else {
      assert i >= 1;
      CapitalWordGapsBeforeUpper(s[1..], i - 1);
      assert s[i + 1] == s[1..][i];
    }
  }

  /** The gaps the second substitution fills besides `gaps`: every lower-case letter or digit before an upper-case letter. */
  function WithLowerUpper(s: string, gaps: seq<bool>): (g: seq<bool>)
    requires |gaps| == |s|
    ensures |g| == |s|
  {
    seq(|s|, i requires 0 <= i < |s| => gaps[i] || (i + 1 < |s| && IsLowerOrDigit(s[i]) && IsUpper(s[i + 1])))
  }

  /** The gaps of `s` that `convert_snake` fills with an underscore. */
  function SnakeGaps(s: string): (g: seq<bool>)
    ensures |g| == |s|
  {
    WithLowerUpper(s, CapitalWordGaps(s))
  }

  lemma {:induction false} ExpandAppend(a: string, ga: seq<bool>, b: string, gb: seq<bool>)
    requires |ga| == |a| && |gb| == |b|
    ensures Expand(a + b, ga + gb) == Expand(a, ga) + Expand(b, gb)
  {
    if a != [] {
      assert (a + b)[1..] == a[1..] + b && (ga + gb)[1..] == ga[1..] + gb;
      ExpandAppend(a[1..], ga[1..], b, gb);
    } else {
      assert a + b == b && ga + gb == gb;
    }
  }

  lemma {:induction false} ExpandFalses(s: string)
    ensures Expand(s, Falses(|s|)) == s
  {
    if s != [] {
      assert Falses(|s|)[1..] == Falses(|s| - 1);
      ExpandFalses(s[1..]);
    }
  }

  /** A character, an underscore gap after it, then a word with no gaps. */
  lemma {:induction false} ExpandWord(c: char, w: string, t: string, gt: seq<bool>)
    requires |gt| == |t|
    ensures Expand([c] + w + t, [true] + Falses(|w|) + gt) == [c, '_'] + w + Expand(t, gt)
  {
    var s := [c] + w + t;
    var g := [true] + Falses(|w|) + gt;
    assert s[1..] == w + t;
    assert g[1..] == Falses(|w|) + gt;
    ExpandFalses(w);
    ExpandAppend(w, Falses(|w|), t, gt);
  }

  lemma {:induction false} SubCapitalWordIsExpand(s: string)
    ensures SubCapitalWord(s) == Expand(s, CapitalWordGaps(s))
    decreases |s|
  {
    if |s| < 3 {
      ExpandFalses(s);
    } else if s[0] != '\n' && IsUpper(s[1]) && IsLower(s[2]) {
      var e := 2 + LowerRun(s[2..]);
      var w, t := s[1..e], s[e..];
      SubCapitalWordIsExpand(t);
      assert s == [s[0]] + w + t;
      ExpandWord(s[0], w, t, CapitalWordGaps(t));
    } else {
      SubCapitalWordIsExpand(s[1..]);
      CapitalWordSkip(s);
    }
  }

  /** No capitalised word at the head: the head is copied with no gap after it. */
  lemma {:induction false} CapitalWordSkip(s: string)
    requires |s| >= 3 && !(s[0] != '\n' && IsUpper(s[1]) && IsLower(s[2]))
    requires SubCapitalWord(s[1..]) == Expand(s[1..], CapitalWordGaps(s[1..]))
    ensures SubCapitalWord(s) == Expand(s, CapitalWordGaps(s))
  {
    var g := CapitalWordGaps(s[1..]);
    assert CapitalWordGaps(s) == [false] + g;
    assert ([false] + g)[1..] == g;
  }

  /** Where the pair test of the second substitution fails at the head, the head is copied. */
  lemma SubLowerUpperCons(t: string)
    requires |t| >= 1 && !(|t| >= 2 && IsLowerOrDigit(t[0]) && IsUpper(t[1]))
    ensures SubLowerUpper(t) == [t[0]] + SubLowerUpper(t[1..])
  {
  }

  lemma {:induction false} SubLowerUpperOfExpand(s: string, g: seq<bool>)
    requires |g| == |s|
    ensures SubLowerUpper(Expand(s, g)) == Expand(s, WithLowerUpper(s, g))
    decreases |s|
  {
    if |s| == 1 {
      if g[0] {
        assert Expand(s, g) == [s[0], '_'];
        SubLowerUpperCons([s[0], '_']);
        assert ['_'] == "_";
      }
    } else if |s| >= 2 {
      SubLowerUpperOfExpand(s[1..], g[1..]);
      LowerUpperStep(s, g);
    }
  }

  /** One step of the scan over an expanded text, given the claim for the rest. */
  lemma {:induction false} LowerUpperStep(s: string, g: seq<bool>)
    requires |g| == |s| >= 2
    requires SubLowerUpper(Expand(s[1..], g[1..])) == Expand(s[1..], WithLowerUpper(s[1..], g[1..]))
    ensures SubLowerUpper(Expand(s, g)) == Expand(s, WithLowerUpper(s, g))
  {
    var G := WithLowerUpper(s, g);
    assert WithLowerUpper(s[1..], g[1..]) == G[1..];
    var e1 := Expand(s[1..], g[1..]);
    assert e1[0] == s[1];
    if g[0] {
      LowerUpperAfterGap(s[0], e1);
    } else if IsLowerOrDigit(s[0]) && IsUpper(s[1]) {
      LowerUpperPair(s[0], e1);
    } else {
      SubLowerUpperCons([s[0]] + e1);
      assert ([s[0]] + e1)[1..] == e1;
    }
  }

  /** An underscore already follows the head: neither it nor the head starts a pair. */
  lemma {:induction false} LowerUpperAfterGap(c: char, e1: string)
    ensures SubLowerUpper([c, '_'] + e1) == [c, '_'] + SubLowerUpper(e1)
  {
    var t := [c, '_'] + e1;
    SubLowerUpperCons(t);
    assert t[1..] == ['_'] + e1;
    SubLowerUpperCons(['_'] + e1);
    assert (['_'] + e1)[1..] == e1;
  }

  /** The head and the next character form a pair: an underscore goes between them. */
  lemma {:induction false} LowerUpperPair(c: char, e1: string)
    requires |e1| >= 1 && IsLowerOrDigit(c) && IsUpper(e1[0])
    ensures SubLowerUpper([c] + e1) == [c, '_', e1[0]] + SubLowerUpper(e1[1..])
  {
    var t := [c] + e1;
    assert t[2..] == e1[1..];
  }

  lemma {:induction false} LowerExpand(s: string, g: seq<bool>)
    requires |g| == |s|
    ensures Lower(Expand(s, g)) == Expand(Lower(s), g)
  {
    if s != [] {
      LowerExpand(s[1..], g[1..]);
      assert Lower(s)[1..] == Lower(s[1..]);
      var u := if g[0] then "_" else "";
      assert Expand(s, g) == [s[0]] + u + Expand(s[1..], g[1..]);
      LowerAppend([s[0]] + u, Expand(s[1..], g[1..]));
      LowerAppend([s[0]], u);
    }
  }

  lemma LowerAppend(a: string, b: string)
    ensures Lower(a + b) == Lower(a) + Lower(b)
  {
  }

  /**
   * `convert_snake(s)` is `s.lower()` with an underscore put into exactly the
   * gaps `SnakeGaps(s)`: nothing else is added, removed or reordered.
   */
  lemma ConvertSnakeShape(s: string)
    ensures ConvertSnake(s) == Expand(Lower(s), SnakeGaps(s))
  {
    SubCapitalWordIsExpand(s);
    SubLowerUpperOfExpand(s, CapitalWordGaps(s));
    LowerExpand(s, SnakeGaps(s));
  }

  /**
   * An underscore is only ever put just before a character that was an
   * upper-case letter, so never in front of the first character nor after
   * the last; and every lower-case letter or digit directly followed by an
   * upper-case letter gets one.
   */
  lemma SnakeGapsPlacement(s: string, i: int)
    requires 0 <= i < |s|
    ensures SnakeGaps(s)[i] ==> i + 1 < |s| && IsUpper(s[i + 1])
    ensures i + 1 < |s| && IsLowerOrDigit(s[i]) && IsUpper(s[i + 1]) ==> SnakeGaps(s)[i]
  {
    if CapitalWordGaps(s)[i] {
      CapitalWordGapsBeforeUpper(s, i);
    }
  }

  lemma {:induction false} ExpandKeepsNoUpper(t: string, g: seq<bool>)
    requires |g| == |t|
    requires forall i :: 0 <= i < |t| ==> !IsUpper(t[i])
    ensures forall i :: 0 <= i < |Expand(t, g)| ==> !IsUpper(Expand(t, g)[i])
  {
    if t != [] {
      ExpandKeepsNoUpper(t[1..], g[1..]);
    }
  }

  /** The result of `convert_snake` holds no upper-case ASCII letter. */
  lemma ConvertSnakeNoUpper(s: string)
    ensures forall i :: 0 <= i < |ConvertSnake(s)| ==> !IsUpper(ConvertSnake(s)[i])
  {
    ConvertSnakeShape(s);
    ExpandKeepsNoUpper(Lower(s), SnakeGaps(s));
  }

  /** A name without upper-case letters is already in snake case and comes back unchanged. */
  lemma ConvertSnakeFixes(s: string)
    requires forall i :: 0 <= i < |s| ==> !IsUpper(s[i])
    ensures ConvertSnake(s) == s
  {
    ConvertSnakeShape(s);
    forall i | 0 <= i < |s| ensures !CapitalWordGaps(s)[i] {
      if CapitalWordGaps(s)[i] {
        CapitalWordGapsBeforeUpper(s, i);
      }
    }
    assert SnakeGaps(s) == Falses(|s|);
    assert Lower(s) == s;
    ExpandFalses(s);
  }

  /** Converting twice is converting once. */
  lemma ConvertSnakeIdempotent(s: string)
    ensures ConvertSnake(ConvertSnake(s)) == ConvertSnake(s)
  {
    ConvertSnakeNoUpper(s);
    ConvertSnakeFixes(ConvertSnake(s));
  }

  /** Where no capitalised word starts among the first `n` characters, the first substitution copies them. */
  lemma {:induction false} SubCapitalWordPrefix(s: string, n: nat)
    requires n <= |s|
    requires forall i :: 0 <= i < n && i + 2 < |s| ==> !(s[i] != '\n' && IsUpper(s[i + 1]) && IsLower(s[i + 2]))
    ensures SubCapitalWord(s) == s[..n] + SubCapitalWord(s[n..])
  {
    if n > 0 && |s| >= 3 {
      assert !(s[0] != '\n' && IsUpper(s[1]) && IsLower(s[2]));
      SubCapitalWordPrefix(s[1..], n - 1);
      assert s[1..][n - 1..] == s[n..];
      assert s[..n] == [s[0]] + s[1..][..n - 1];
    } else if n > 0 {
      assert s[..n] + s[n..] == s;
    }
  }

  /** Where no lower-upper pair starts among the first `n` characters, the second substitution copies them. */
  lemma {:induction false} SubLowerUpperPrefix(s: string, n: nat)
    requires n <= |s|
    requires forall i :: 0 <= i < n && i + 1 < |s| ==> !(IsLowerOrDigit(s[i]) && IsUpper(s[i + 1]))
    ensures SubLowerUpper(s) == s[..n] + SubLowerUpper(s[n..])
  {
    if n > 0 && |s| >= 2 {
      assert !(IsLowerOrDigit(s[0]) && IsUpper(s[1]));
      SubLowerUpperPrefix(s[1..], n - 1);
      assert s[1..][n - 1..] == s[n..];
      assert s[..n] == [s[0]] + s[1..][..n - 1];
    } else if n > 0 {
      assert s[..n] + s[n..] == s;
    }
  }

  lemma LowerFixes(s: string)
    requires forall i :: 0 <= i < |s| ==> !IsUpper(s[i])
    ensures Lower(s) == s
  {
  }

  lemma CapitalWordAt(s: string, e: nat)
    requires |s| >= 3 && s[0] != '\n' && IsUpper(s[1]) && IsLower(s[2])
    requires e == 2 + LowerRun(s[2..])
    ensures SubCapitalWord(s) == [s[0], '_'] + s[1..e] + SubCapitalWord(s[e..])
  {
  }

  lemma ExamplePerson(p: string)
    requires p == "Person"
    ensures SubCapitalWord(p) == p
  {
    SubCapitalWordPrefix(p, 6);
    assert p[..6] == p && p[6..] == [];
  }

  lemma ExampleLowerRun(o: string)
    requires o == "ontactPerson"
    ensures LowerRun(o) == 6 && o[6..] == "Person"
  {
    var r := o;
    var k := 0;
    while k < 6
      invariant 0 <= k <= 6 && r == o[k..]
      invariant LowerRun(o) == k + LowerRun(r)
    {
      assert IsLower(r[0]);
      r := r[1..];
      k := k + 1;
    }
    assert !IsLower(r[0]);
  }

  /** A capitalised word of `1 + w` letters after the head, then a tail the first substitution keeps. */
  lemma {:induction false} CapitalWordThenKept(t: string, w: nat)
    requires 1 <= w && 2 + w <= |t|
    requires t[0] != '\n' && IsUpper(t[1]) && IsLower(t[2]) && LowerRun(t[2..]) == w
    requires SubCapitalWord(t[2 + w..]) == t[2 + w..]
    ensures SubCapitalWord(t) == [t[0]] + "_" + t[1..]
  {
    CapitalWordAt(t, 2 + w);
    assert t[1..2 + w] + t[2 + w..] == t[1..];
  }

  lemma {:induction false} ExampleFirstSubstitution(s: string)
    requires s == "hasContactPerson"
    ensures SubCapitalWord(s) == "has_ContactPerson"
  {
    var t := s[2..];
    assert SubCapitalWord(s) == s[..2] + SubCapitalWord(t) by {
      assert !IsUpper(s[1]) && !IsUpper(s[2]);
      SubCapitalWordPrefix(s, 2);
    }
    assert SubCapitalWord(t) == [t[0]] + "_" + t[1..] by {
      assert t[2..] == "ontactPerson" && t[8..] == "Person";
      ExampleLowerRun(t[2..]);
      ExamplePerson(t[8..]);
      CapitalWordThenKept(t, 6);
    }
    assert s[..2] + ([t[0]] + "_" + t[1..]) == s[..3] + "_" + s[3..];
    ExampleUnderscore(s);
  }

  lemma ExampleUnderscore(s: string)
    requires s == "hasContactPerson"
    ensures s[..3] + "_" + s[3..] == "has_ContactPerson"
  {
    var r, t := s[..3] + "_" + s[3..], "has_ContactPerson";
    assert |r| == |t|;
    forall i | 0 <= i < |r| ensures r[i] == t[i] {
      if i > 3 {
        assert r[i] == s[i - 1];
      }
    }
  }

  /** A single lower-upper pair at `n`, `n + 1`: the second substitution puts one underscore between them. */
  lemma {:induction false} SubLowerUpperOnce(s: string, n: nat)
    requires n + 2 <= |s|
    requires forall i :: 0 <= i < n ==> !(IsLowerOrDigit(s[i]) && IsUpper(s[i + 1]))
    requires IsLowerOrDigit(s[n]) && IsUpper(s[n + 1])
    requires forall i :: n + 2 <= i < |s| - 1 ==> !(IsLowerOrDigit(s[i]) && IsUpper(s[i + 1]))
    ensures SubLowerUpper(s) == s[..n + 1] + "_" + s[n + 1..]
  {
    var t := s[n..];
    var u := t[2..];
    assert SubLowerUpper(s) == s[..n] + SubLowerUpper(t) by {
      SubLowerUpperPrefix(s, n);
    }
    assert SubLowerUpper(u) == u by {
      forall i | 0 <= i < |u| && i + 1 < |u| ensures !(IsLowerOrDigit(u[i]) && IsUpper(u[i + 1])) {
        assert u[i] == s[n + 2 + i] && u[i + 1] == s[n + 2 + i + 1];
      }
      SubLowerUpperPrefix(u, |u|);
      assert u[..|u|] == u && u[|u|..] == [];
    }
    assert SubLowerUpper(t) == [t[0], '_', t[1]] + u;
    assert s[..n] + [t[0]] == s[..n + 1] && [t[1]] + u == s[n + 1..];
    assert s[..n] + ([t[0], '_', t[1]] + u) == (s[..n] + [t[0]]) + "_" + ([t[1]] + u);
  }

  lemma ExampleSecondSubstitution(s: string)
    requires s == "has_ContactPerson"
    ensures SubLowerUpper(s) == "has_Contact_Person"
  {
    forall i | 0 <= i < 10 ensures !(IsLowerOrDigit(s[i]) && IsUpper(s[i + 1])) {
      assert i + 1 != 4 || !IsLowerOrDigit(s[i]);
    }
    forall i | 12 <= i < |s| - 1 ensures !(IsLowerOrDigit(s[i]) && IsUpper(s[i + 1])) {
    }
    SubLowerUpperOnce(s, 10);
    ExampleSecondUnderscore(s);
  }

  lemma ExampleSecondUnderscore(s: string)
    requires s == "has_ContactPerson"
    ensures s[..11] + "_" + s[11..] == "has_Contact_Person"
  {
    var r, v := s[..11] + "_" + s[11..], "has_Contact_Person";
    assert |r| == |v|;
    forall i | 0 <= i < |r| ensures r[i] == v[i] {
      if i > 11 {
        assert r[i] == s[i - 1];
      }
    }
  }

  lemma ExampleLowering(u: string)
    requires u == "has_Contact_Person"
    ensures Lower(u) == "has_contact_person"
  {
    var v := "has_contact_person";
    assert |Lower(u)| == |v|;
    forall i | 0 <= i < |u| ensures Lower(u)[i] == v[i] {
      if i != 4 && i != 12 {
        assert u[i] == v[i];
        assert !IsUpper(u[i]);
      }
    }
  }

  /** The example the API relies on: `hasContactPerson` is aliased as `has_contact_person`. */
  lemma ConvertSnakeExample(s: string)
    requires s == "hasContactPerson"
    ensures ConvertSnake(s) == "has_contact_person"
  {
    ExampleFirstSubstitution(s);
    ExampleSecondSubstitution(SubCapitalWord(s));
    ExampleLowering(SubLowerUpper(SubCapitalWord(s)));
  }
}
