/** The ECMAScript string built-ins the script relies on: `trim()`,
    `replace(/\s+/g, '_')` and `replaceAll(c, '')`. `trim` and the
    regular-expression class `\s` share one definition of white space. */
module JsString {

  import Js

  /** ECMAScript WhiteSpace and LineTerminator code points: tab, vertical tab,
      form feed, space, no-break space, byte order mark, the Unicode space
      separators (category Zs), line feed, carriage return, and the line and
      paragraph separators. */
  predicate IsSpace(c: char) {
    || c == '\t' || c == '\U{000B}' || c == '\U{000C}' || c == ' '
    || c == '\U{00A0}' || c == '\U{FEFF}' || c == '\U{1680}'
    || ('\U{2000}' <= c <= '\U{200A}')
    || c == '\U{202F}' || c == '\U{205F}' || c == '\U{3000}'
    || c == '\n' || c == '\r' || c == '\U{2028}' || c == '\U{2029}'
  }

  predicate AllSpace(s: string) {
    forall i :: 0 <= i < |s| ==> IsSpace(s[i])
  }

  predicate NoSpace(s: string) {
    forall i :: 0 <= i < |s| ==> !IsSpace(s[i])
  }

  /** `s.startsWith(prefix)`. */
  predicate StartsWith(s: string, prefix: string) {
    |prefix| <= |s| && s[..|prefix|] == prefix
  }

  /** Length of the longest all-white-space prefix. */
  function LeadingSpaces(s: string): (k: nat)
    ensures k <= |s|
    ensures forall i :: 0 <= i < k ==> IsSpace(s[i])
    ensures k < |s| ==> !IsSpace(s[k])
  {
    if s == [] || !IsSpace(s[0]) then 0
    else 1 + LeadingSpaces(s[1..])
  }

  /** Length of the longest all-white-space suffix. */
  function TrailingSpaces(s: string): (k: nat)
    ensures k <= |s|
    ensures forall i :: |s| - k <= i < |s| ==> IsSpace(s[i])
    ensures k < |s| ==> !IsSpace(s[|s| - k - 1])
  {
    if s == [] || !IsSpace(s[|s| - 1]) then 0
    else 1 + TrailingSpaces(s[..|s| - 1])
  }

  /** The prefix length characterised by `LeadingSpaces`'s contract is unique. */
  lemma LeadingSpacesUnique(s: string, k: nat)
    requires k <= |s| && forall i :: 0 <= i < k ==> IsSpace(s[i])
    requires k < |s| ==> !IsSpace(s[k])
    ensures LeadingSpaces(s) == k
  {
  }

  /** `s.trim()`: `s` with its leading and trailing white space removed. */
  function Trim(s: string): (r: string)
    ensures r == [] <==> AllSpace(s)
    ensures r != [] ==> !IsSpace(r[0]) && !IsSpace(r[|r| - 1])
    ensures LeadingSpaces(s) + |r| <= |s|
    ensures s == s[..LeadingSpaces(s)] + r + s[LeadingSpaces(s) + |r|..]
    ensures AllSpace(s[LeadingSpaces(s) + |r|..])
  {
    var a := LeadingSpaces(s);
    var b := TrailingSpaces(s[a..]);
    TrimParts(s, a, b);
    s[a..|s| - b]
  }

  /** Cutting the leading run `a` and then the trailing run `b` of the rest
      leaves a core that is empty exactly for all-space input and otherwise
      starts and ends with non-space. */
  lemma TrimParts(s: string, a: nat, b: nat)
    requires a <= |s| && forall i :: 0 <= i < a ==> IsSpace(s[i])
    requires a < |s| ==> !IsSpace(s[a])
    requires b == TrailingSpaces(s[a..])
    ensures a + b <= |s|
    ensures s[a..|s| - b] == [] <==> AllSpace(s)
    ensures a + b < |s| ==> !IsSpace(s[a]) && !IsSpace(s[|s| - b - 1])
    ensures s == s[..a] + s[a..|s| - b] + s[|s| - b..]
    ensures AllSpace(s[|s| - b..])
  {
    TailSpaces(s, a, b);
    assert s == s[..a] + s[a..|s| - b] + s[|s| - b..];
  }

  /** The trailing run of `s[a..]`, read as positions of `s`. */
  lemma TailSpaces(s: string, a: nat, b: nat)
    requires a <= |s| && b == TrailingSpaces(s[a..])
    ensures a + b <= |s|
    ensures AllSpace(s[|s| - b..])
    ensures forall i :: |s| - b <= i < |s| ==> IsSpace(s[i])
    ensures a + b < |s| ==> !IsSpace(s[|s| - b - 1])
  {
    var rest := s[a..];
    forall i | |s| - b <= i < |s|
      ensures IsSpace(s[i])
    {
      assert s[i] == rest[i - a];
    }
    var tail := s[|s| - b..];
    forall j | 0 <= j < |tail|
      ensures IsSpace(tail[j])
    {
      assert tail[j] == s[|s| - b + j];
    }
    if a + b < |s| {
      assert s[|s| - b - 1] == rest[|rest| - b - 1];
    }
  }

  /** A string that neither starts nor ends with white space is its own trim. */
  lemma TrimUnpadded(s: string)
    requires s != [] && !IsSpace(s[0]) && !IsSpace(s[|s| - 1])
    ensures Trim(s) == s
  {
    LeadingSpacesUnique(s, 0);
    var r := Trim(s);
    assert s == r + s[|r|..];
  }

  /** `s.replace(/\s+/g, '_')`: scanning from the left, each longest run of
      white space is replaced by one underscore. */
  function CollapseSpaces(s: string): (r: string)
    ensures NoSpace(r)
    ensures |r| <= |s|
    ensures r == [] <==> s == []
    decreases |s|
  {
    if s == [] then []
    else if IsSpace(s[0]) then
      var k := LeadingSpaces(s);
      "_" + CollapseSpaces(s[k..])
    else [s[0]] + CollapseSpaces(s[1..])
  }

  /** A string without white space is left as it is. */
  lemma {:induction false} CollapseWithoutSpace(s: string)
    requires NoSpace(s)
    ensures CollapseSpaces(s) == s
    decreases |s|
  {
    if s != [] {
      CollapseWithoutSpace(s[1..]);
      assert s == [s[0]] + s[1..];
    }
  }

  lemma LeadingSpacesOfJoin(a: string, b: string)
    ensures LeadingSpaces(a) < |a| ==> LeadingSpaces(a + b) == LeadingSpaces(a)
    ensures LeadingSpaces(a) == |a| ==> LeadingSpaces(a + b) == |a| + LeadingSpaces(b)
  {
    var la := LeadingSpaces(a);
    if la < |a| {
      assert (a + b)[..la] == a[..la];
      LeadingSpacesUnique(a + b, la);
    } else {
      var lb := LeadingSpaces(b);
      var k := |a| + lb;
      forall i | 0 <= i < k ensures IsSpace((a + b)[..k][i]) {
        if i < |a| { assert a[..la][i] == a[i]; }
        else { assert b[..lb][i - |a|] == b[i - |a|]; }
      }
      LeadingSpacesUnique(a + b, k);
    }
  }

  /** A leading run of white space becomes one underscore. */
  lemma CollapseLeadingRun(w: string, b: string)
    requires w != [] && AllSpace(w)
    requires b == [] || !IsSpace(b[0])
    ensures CollapseSpaces(w + b) == "_" + CollapseSpaces(b)
  {
    LeadingSpacesUnique(w + b, |w|);
    assert (w + b)[|w|..] == b;
  }

  /** Each maximal run of white space becomes exactly one underscore: a run
      `w` that is neither preceded nor followed by white space contributes one
      `_` between the images of its neighbours. Together with
      `CollapseWithoutSpace` this determines `CollapseSpaces` on every input. */
  lemma {:induction false} CollapseRun(a: string, w: string, b: string)
    requires w != [] && AllSpace(w)
    requires a == [] || !IsSpace(a[|a| - 1])
    requires b == [] || !IsSpace(b[0])
    ensures CollapseSpaces(a + w + b) == CollapseSpaces(a) + "_" + CollapseSpaces(b)
    decreases |a|, 1
  {
    if a == [] {
      assert a + w + b == w + b;
      CollapseLeadingRun(w, b);
    } else {
      CollapseRunAfter(a, w, b);
    }
  }

  /** The inductive step of `CollapseRun`: the first token of a non-empty `a`
      (one character, or its leading run of white space) is rewritten the same
      way whether or not `w + b` follows it. */
  lemma {:induction false} CollapseRunAfter(a: string, w: string, b: string)
    requires w != [] && AllSpace(w)
    requires a != [] && !IsSpace(a[|a| - 1])
    requires b == [] || !IsSpace(b[0])
    ensures CollapseSpaces(a + w + b) == CollapseSpaces(a) + "_" + CollapseSpaces(b)
    decreases |a|, 0
  {
    var k, head := CollapseHead(a, w + b);
    var rest := a[k..];
    assert a + w + b == a + (w + b) && rest + (w + b) == rest + w + b;
    CollapseRun(rest, w, b);
    Regroup(head, CollapseSpaces(rest), CollapseSpaces(b));
  }

  lemma Regroup(head: string, x: string, y: string)
    ensures head + (x + "_" + y) == head + x + "_" + y
  {
  }

  /** The first token of `x` (one character, or its leading run of white
      space when that run ends inside `x`) is rewritten independently of what
      follows `x`. */
  lemma CollapseHead(x: string, t: string) returns (k: nat, head: string)
    requires x != [] && !IsSpace(x[|x| - 1])
    ensures 0 < k <= |x|
    ensures CollapseSpaces(x + t) == head + CollapseSpaces(x[k..] + t)
    ensures CollapseSpaces(x) == head + CollapseSpaces(x[k..])
  {
    if IsSpace(x[0]) {
      k, head := LeadingSpaces(x), "_";
      LeadingSpacesOfJoin(x, t);
    } else {
      k, head := 1, [x[0]];
    }
    assert (x + t)[k..] == x[k..] + t;
  }

  /** `s.replaceAll(c, '')`: every occurrence of `c` removed. */
  function RemoveAll(s: string, c: char): (r: string)
    ensures c !in r
    ensures |r| <= |s|
  {
    if s == [] then []
    else (if s[0] == c then [] else [s[0]]) + RemoveAll(s[1..], c)
  }

  /** Removal deletes every copy of `c` and nothing else. */
  lemma {:induction false} RemoveAllCounts(s: string, c: char)
    ensures multiset(RemoveAll(s, c)) == multiset(s)[c := 0]
    ensures |RemoveAll(s, c)| == |s| - multiset(s)[c]
  {
    if s != [] {
      RemoveAllCounts(s[1..], c);
      assert s == [s[0]] + s[1..];
    }
  }

  /** Removal works piecewise, so it keeps the other characters in order. */
  lemma {:induction false} RemoveAllJoin(a: string, b: string, c: char)
    ensures RemoveAll(a + b, c) == RemoveAll(a, c) + RemoveAll(b, c)
  {
    if a != [] {
      RemoveAllJoin(a[1..], b, c);
      assert (a + b)[1..] == a[1..] + b;
    } else {
      assert a + b == b;
    }
  }

  /** A string without `c` is left as it is. */
  lemma {:induction false} RemoveAllAbsent(s: string, c: char)
    requires c !in s
    ensures RemoveAll(s, c) == s
  {
    if s != [] {
      RemoveAllAbsent(s[1..], c);
      assert s == [s[0]] + s[1..];
    }
  }
}
