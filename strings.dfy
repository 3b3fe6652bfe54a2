/**
 * The JavaScript string operations the handlers and pages rely on, stated over
 * `seq<char>`: literal search (`includes`, `indexOf`, `endsWith`), literal global
 * and first-occurrence replacement (`replace(/lit/g, …)`, `replace('lit', …)`),
 * `trim`, `split(' ')[0]` and an ASCII `toLowerCase`.
 */
module Strings {
  import opened Wrappers

  /** JavaScript truthiness of an optional string: present and not empty. */
  predicate Truthy(s: Option<string>) {
    s.Some? && s.value != ""
  }

  /** `pat` occurs in `s` starting at index `i`. */
  predicate OccursAt(s: string, pat: string, i: int) {
    0 <= i && i + |pat| <= |s| && s[i..i + |pat|] == pat
  }

  /** `s.includes(pat)`. */
  predicate Contains(s: string, pat: string) {
    exists i | 0 <= i <= |s| - |pat| :: OccursAt(s, pat, i)
  }

  /** `s.endsWith(suffix)`. */
  predicate EndsWith(s: string, suffix: string) {
    |suffix| <= |s| && s[|s| - |suffix|..] == suffix
  }

  /** The first index at or after `from` where `pat` occurs, as `s.indexOf(pat, from)`. */
  function IndexOfFrom(s: string, pat: string, from: nat): (r: Option<nat>)
    decreases |s| - from
    ensures r.Some? ==> from <= r.value && OccursAt(s, pat, r.value)
    ensures forall j :: from <= j && (r.None? || j < r.value) ==> !OccursAt(s, pat, j)
  {
    if from + |pat| > |s| then None
    else if s[from..from + |pat|] == pat then Some(from)
    else IndexOfFrom(s, pat, from + 1)
  }

  /** The first occurrence of `pat` in `s`, if any. */
  function IndexOf(s: string, pat: string): (r: Option<nat>)
    ensures r.Some? <==> Contains(s, pat)
    ensures r.Some? ==> OccursAt(s, pat, r.value) && forall j :: 0 <= j < r.value ==> !OccursAt(s, pat, j)
  {
    IndexOfFrom(s, pat, 0)
  }

  /** `s.replace(/pat/g, rep)` for a pattern without metacharacters: occurrences are
      found left to right and do not overlap. */
  function ReplaceAll(s: string, pat: string, rep: string): (r: string)
    requires pat != []
    decreases |s|
    ensures !Contains(s, pat) ==> r == s
  {
    if |s| < |pat| then s
    else if s[..|pat|] == pat then
      assert OccursAt(s, pat, 0);
      rep + ReplaceAll(s[|pat|..], pat, rep)
    else
      assert forall j :: OccursAt(s[1..], pat, j) ==> OccursAt(s, pat, j + 1);
      [s[0]] + ReplaceAll(s[1..], pat, rep)
  }

  /** An occurrence at the start is replaced and the scan carries on after it. */
  lemma ReplaceAllAtStart(s: string, pat: string, rep: string)
    requires pat != [] && OccursAt(s, pat, 0)
    ensures ReplaceAll(s, pat, rep) == rep + ReplaceAll(s[|pat|..], pat, rep)
  {
  }

  /** A character that does not start an occurrence is kept and the scan moves on by one. */
  lemma ReplaceAllSkips(s: string, pat: string, rep: string)
    requires pat != [] && |s| >= |pat| && !OccursAt(s, pat, 0)
    ensures ReplaceAll(s, pat, rep) == [s[0]] + ReplaceAll(s[1..], pat, rep)
  {
  }

  /** The first occurrence of `pat` in `a + pat + b` is the one after `a`
      (no occurrence starts inside `a`): the text before it is kept, it is
      replaced, and the replacement goes on in `b`. */
  lemma {:induction false} ReplaceAllFirstOccurrence(a: string, pat: string, b: string, rep: string)
    requires pat != [] && !Contains(a + pat[..|pat| - 1], pat)
    ensures ReplaceAll(a + pat + b, pat, rep) == a + rep + ReplaceAll(b, pat, rep)
    decreases |a|
  {
    if a == [] {
      assert a + pat + b == pat + b;
      OccursAtStart(pat, b);
      ReplaceAllAtStart(pat + b, pat, rep);
      assert (pat + b)[|pat|..] == b;
    } else {
      SkipPlainChar(a, pat, b, rep);
      ReplaceAllFirstOccurrence(a[1..], pat, b, rep);
      ConsRegroup(a, rep, ReplaceAll(b, pat, rep));
    }
  }

  /** The first character of a non-empty plain prefix is kept. */
  lemma SkipPlainChar(a: string, pat: string, b: string, rep: string)
    requires pat != [] && a != [] && !Contains(a + pat[..|pat| - 1], pat)
    ensures ReplaceAll(a + pat + b, pat, rep) == [a[0]] + ReplaceAll(a[1..] + pat + b, pat, rep)
    ensures !Contains(a[1..] + pat[..|pat| - 1], pat)
  {
    var s := a + pat + b;
    NoOccurrenceAtStart(a, pat, b);
    ReplaceAllSkips(s, pat, rep);
    TailOfPlainPrefix(a, pat);
    assert s[1..] == a[1..] + pat + b;
  }

  lemma OccursAtStart(pat: string, b: string)
    ensures OccursAt(pat + b, pat, 0)
  {
    assert (pat + b)[..|pat|] == pat;
  }

  /** With no occurrence starting inside a non-empty `a`, none starts at the
      beginning of `a + pat + b`. */
  lemma NoOccurrenceAtStart(a: string, pat: string, b: string)
    requires pat != [] && a != [] && !Contains(a + pat[..|pat| - 1], pat)
    ensures |a + pat + b| >= |pat| && !OccursAt(a + pat + b, pat, 0)
  {
    var u := a + pat[..|pat| - 1];
    assert !OccursAt(u, pat, 0);
    assert (a + pat + b)[..|pat|] == u[..|pat|];
  }

  /** An occurrence in the tail of `u` is one in `u`. */
  lemma TailOfPlainPrefix(a: string, pat: string)
    requires pat != [] && a != [] && !Contains(a + pat[..|pat| - 1], pat)
    ensures !Contains(a[1..] + pat[..|pat| - 1], pat)
  {
    var u := a + pat[..|pat| - 1];
    assert a[1..] + pat[..|pat| - 1] == u[1..];
    forall j | 0 <= j <= |u[1..]| - |pat| ensures !OccursAt(u[1..], pat, j) {
      assert !OccursAt(u, pat, j + 1);
      assert u[1..][j..j + |pat|] == u[j + 1..j + 1 + |pat|];
    }
  }

  lemma ConsRegroup(a: string, rep: string, x: string)
    requires a != []
    ensures [a[0]] + (a[1..] + rep + x) == a + rep + x
  {
    assert a == [a[0]] + a[1..];
  }

  /** A prefix that lacks the pattern's first character is kept as it is, and
      the replacement goes on after it. */
  lemma {:induction false} ReplaceAllPlainPrefix(a: string, b: string, pat: string, rep: string)
    requires pat != [] && pat[0] !in a
    ensures ReplaceAll(a + b, pat, rep) == a + ReplaceAll(b, pat, rep)
    decreases |a|
  {
    if a == [] {
      assert a + b == b;
    } else {
      SkipForeignChar(a, b, pat, rep);
      ReplaceAllPlainPrefix(a[1..], b, pat, rep);
      ConsAppend(a, ReplaceAll(b, pat, rep));
    }
  }

  lemma ConsAppend(a: string, x: string)
    requires a != []
    ensures [a[0]] + (a[1..] + x) == a + x
  {
    assert a == [a[0]] + a[1..];
  }

  /** A first character that is not the pattern's first character is kept. */
  lemma SkipForeignChar(a: string, b: string, pat: string, rep: string)
    requires pat != [] && a != [] && pat[0] !in a
    ensures ReplaceAll(a + b, pat, rep) == [a[0]] + ReplaceAll(a[1..] + b, pat, rep)
    ensures pat[0] !in a[1..]
  {
    var s := a + b;
    assert s[1..] == a[1..] + b;
    if |s| >= |pat| {
      assert s[..|pat|][0] == a[0];
      ReplaceAllSkips(s, pat, rep);
    } else {
      assert |b| < |pat| && |s[1..]| < |pat|;
    }
  }

  /** `pat` has period `d`: shifted by `d` it agrees with itself. */
  predicate Overlaps(pat: string, d: nat)
    requires d <= |pat|
  {
    pat[d..] == pat[..|pat| - d]
  }

  /** No two occurrences of `pat` can overlap. */
  predicate SelfOverlapFree(pat: string) {
    forall d :: 1 <= d < |pat| ==> !Overlaps(pat, d)
  }

  /** A pattern whose first character occurs nowhere else in it cannot overlap itself. */
  lemma FirstCharUnique(pat: string)
    requires pat != [] && pat[0] !in pat[1..]
    ensures SelfOverlapFree(pat)
  {
    forall d | 1 <= d < |pat| ensures !Overlaps(pat, d) {
      assert pat[d..][0] == pat[1..][d - 1];
    }
  }

  /** When `pat` cannot overlap itself, an occurrence in `a + pat[..|pat| - 1]`
      lies inside `a`. */
  lemma NoSeamOccurrence(a: string, pat: string)
    requires pat != [] && SelfOverlapFree(pat) && !Contains(a, pat)
    ensures !Contains(a + pat[..|pat| - 1], pat)
  {
    var u := a + pat[..|pat| - 1];
    forall j | 0 <= j <= |u| - |pat| ensures !OccursAt(u, pat, j) {
      if j + |pat| <= |a| {
        assert !OccursAt(a, pat, j);
        assert u[j..j + |pat|] == a[j..j + |pat|];
      } else {
        var d := |a| - j;
        assert !Overlaps(pat, d);
        assert u[j..j + |pat|][d..] == pat[..|pat| - d];
      }
    }
  }

  /** A single occurrence of a pattern that cannot overlap itself is replaced
      and the text around it is kept. */
  lemma ReplaceAllSingle(a: string, pat: string, b: string, rep: string)
    requires pat != [] && SelfOverlapFree(pat) && !Contains(a, pat) && !Contains(b, pat)
    ensures ReplaceAll(a + pat + b, pat, rep) == a + rep + b
  {
    NoSeamOccurrence(a, pat);
    ReplaceAllFirstOccurrence(a, pat, b, rep);
  }

  /** `s.replace(pat, rep)` with a string pattern: only the first occurrence is replaced. */
  function ReplaceFirst(s: string, pat: string, rep: string): (r: string)
    ensures !Contains(s, pat) ==> r == s
    ensures Contains(s, pat) ==>
      exists i :: 0 <= i <= |s| - |pat| && OccursAt(s, pat, i) &&
        (forall j :: 0 <= j < i ==> !OccursAt(s, pat, j)) &&
        r == s[..i] + rep + s[i + |pat|..]
  {
    match IndexOf(s, pat)
    case None => s
    case Some(i) => s[..i] + rep + s[i + |pat|..]
  }

  /** A string occurs in any string built around it. */
  lemma InfixOccurs(head: string, mid: string, tail: string)
    ensures OccursAt(head + mid + tail, mid, |head|) && Contains(head + mid + tail, mid)
  {
    var r := head + mid + tail;
    assert r[|head|..|head| + |mid|] == mid;
    assert OccursAt(r, mid, |head|);
  }

  /** What occurs in a part of `a` occurs in `a`. */
  lemma ContainsTransitive(a: string, b: string, c: string)
    requires Contains(a, b) && Contains(b, c)
    ensures Contains(a, c)
  {
    var i :| 0 <= i <= |a| - |b| && OccursAt(a, b, i);
    var j :| 0 <= j <= |b| - |c| && OccursAt(b, c, j);
    forall k | 0 <= k < |c|
      ensures a[i + j + k] == c[k]
    {
      assert a[i..i + |b|][j + k] == b[j + k];
      assert b[j..j + |c|][k] == c[k];
    }
    assert a[i + j..i + j + |c|] == c;
    assert OccursAt(a, c, i + j);
  }

  /** Replacing the first `pat` by `ins + pat` inserts `ins` just before it. */
  lemma ReplaceFirstInserts(s: string, pat: string, ins: string)
    requires Contains(s, pat)
    ensures ReplaceFirst(s, pat, ins + pat) == s[..IndexOf(s, pat).value] + ins + s[IndexOf(s, pat).value..]
  {
    var i := IndexOf(s, pat).value;
    var tail := s[i + |pat|..];
    assert OccursAt(s, pat, i);
    assert ReplaceFirst(s, pat, ins + pat) == s[..i] + (ins + pat) + tail;
    assert s[i..] == pat + tail;
    assert s[..i] + (ins + pat) + tail == s[..i] + ins + (pat + tail);
  }

  /** In `prefix + v + (c + rest)` where `v` lacks `c`, the first `c` after the
      prefix is the one right after `v`. */
  lemma FirstAfter(s: string, prefix: string, v: string, c: char, rest: string)
    requires c !in v && s == prefix + v + ([c] + rest)
    ensures IndexOfFrom(s, [c], |prefix|) == Some(|prefix| + |v|)
  {
    OnlyAfter(prefix, v, c, rest);
    IndexOfFromFinds(s, [c], |prefix|, |prefix| + |v|);
  }

  lemma OnlyAfter(prefix: string, v: string, c: char, rest: string)
    requires c !in v
    ensures OccursAt(prefix + v + ([c] + rest), [c], |prefix| + |v|)
    ensures forall j :: |prefix| <= j < |prefix| + |v| ==> !OccursAt(prefix + v + ([c] + rest), [c], j)
  {
    var s := prefix + v + ([c] + rest);
    var n := |prefix| + |v|;
    assert s[n..n + 1] == [c];
    forall j | |prefix| <= j < n
      ensures !OccursAt(s, [c], j)
    {
      CharAt(prefix, v, [c] + rest, j);
    }
  }

  lemma CharAt(prefix: string, v: string, rest: string, j: int)
    requires |prefix| <= j < |prefix| + |v|
    ensures (prefix + v + rest)[j..j + 1] == [v[j - |prefix|]]
  {
  }

  /** `IndexOfFrom` finds an occurrence when none comes before it. */
  lemma IndexOfFromFinds(s: string, pat: string, from: nat, i: nat)
    requires from <= i && OccursAt(s, pat, i)
    requires forall j :: from <= j < i ==> !OccursAt(s, pat, j)
    ensures IndexOfFrom(s, pat, from) == Some(i)
  {
  }

  /** A pattern with a character that `s` lacks does not occur in `s`. */
  lemma MissingCharNoOccurrence(s: string, pat: string, k: nat)
    requires k < |pat| && pat[k] !in s
    ensures !Contains(s, pat)
  {
  }

  /** JavaScript's white space and line terminators: the class `\s` of regular
      expressions and the characters `trim` removes. */
  predicate IsJsSpace(c: char) {
    var n := c as int;
    (9 <= n <= 13) || n == 32 || n == 0xA0 || n == 0x1680 || (0x2000 <= n <= 0x200A) ||
    n == 0x2028 || n == 0x2029 || n == 0x202F || n == 0x205F || n == 0x3000 || n == 0xFEFF
  }

  /** `s` with its leading white space removed. */
  function TrimStart(s: string): (r: string)
    ensures |r| <= |s| && r == s[|s| - |r|..]
    ensures forall k :: 0 <= k < |s| - |r| ==> IsJsSpace(s[k])
    ensures r != [] ==> !IsJsSpace(r[0])
  {
    if s != [] && IsJsSpace(s[0]) then TrimStart(s[1..]) else s
  }

  /** `s` with its trailing white space removed. */
  function TrimEnd(s: string): (r: string)
    ensures |r| <= |s| && r == s[..|r|]
    ensures forall k :: |r| <= k < |s| ==> IsJsSpace(s[k])
    ensures r != [] ==> !IsJsSpace(r[|r| - 1])
  {
    if s != [] && IsJsSpace(s[|s| - 1]) then TrimEnd(s[..|s| - 1]) else s
  }

  /** `r` is the slice of `s` at `i` and only white space surrounds it. */
  predicate SliceBetweenSpaces(s: string, r: string, i: int) {
    0 <= i <= |s| - |r| && r == s[i..i + |r|] &&
    (forall k :: 0 <= k < i ==> IsJsSpace(s[k])) &&
    (forall k :: i + |r| <= k < |s| ==> IsJsSpace(s[k]))
  }

  /** `s.trim()`: the slice of `s` between its leading and trailing white space. */
  function Trim(s: string): (r: string)
    ensures r != [] ==> !IsJsSpace(r[0]) && !IsJsSpace(r[|r| - 1])
    ensures exists i :: SliceBetweenSpaces(s, r, i)
  {
    var t := TrimStart(s);
    var r := TrimEnd(t);
    assert r == s[|s| - |t|..|s| - |t| + |r|];
    assert SliceBetweenSpaces(s, r, |s| - |t|);
    r
  }

  /** `s.substring(0, n)`: the first `n` characters, or all of a shorter `s`. */
  function Substring0(s: string, n: nat): (r: string)
    ensures r <= s && |r| == (if |s| < n then |s| else n)
  {
    if |s| <= n then s else s[..n]
  }

  /** `s.split(' ')[0]`: the longest prefix of `s` without a space. */
  function FirstWord(s: string): (r: string)
    ensures r <= s && ' ' !in r
    ensures |r| < |s| ==> s[|r|] == ' '
  {
    if s == [] || s[0] == ' ' then [] else [s[0]] + FirstWord(s[1..])
  }

  /** `toLowerCase` on the ASCII letters; every other character is kept. */
  function LowerChar(c: char): char {
    if 'A' <= c <= 'Z' then (c as int + 32) as char else c
  }

  function ToLower(s: string): (r: string)
    ensures |r| == |s| && forall k :: 0 <= k < |s| ==> r[k] == LowerChar(s[k])
    ensures forall k :: 0 <= k < |r| ==> !('A' <= r[k] <= 'Z')
  {
    seq(|s|, k requires 0 <= k < |s| => LowerChar(s[k]))
  }

  /** Lower-casing twice is lower-casing once. */
  lemma ToLowerIdempotent(s: string)
    ensures ToLower(ToLower(s)) == ToLower(s)
  {
    var t := ToLower(s);
    forall k | 0 <= k < |t| ensures ToLower(t)[k] == t[k] {
      assert !('A' <= t[k] <= 'Z');
    }
  }

  /** JavaScript's `a < b` on strings, by code point: the first differing
      character decides, and a proper prefix is smaller. */
  predicate LexLess(a: string, b: string)
    decreases |a|
    ensures a < b ==> LexLess(a, b)
  {
    if a == [] then b != []
    else if b == [] then false
    else if a[0] != b[0] then a[0] < b[0]
    else LexLess(a[1..], b[1..])
  }

  lemma {:induction false} LexLessIrreflexive(a: string)
    ensures !LexLess(a, a)
  {
    if a != [] { LexLessIrreflexive(a[1..]); }
  }

  lemma {:induction false} LexLessTotal(a: string, b: string)
    ensures a == b || LexLess(a, b) || LexLess(b, a)
  {
    if a != [] && b != [] && a[0] == b[0] {
      LexLessTotal(a[1..], b[1..]);
      if a[1..] == b[1..] { assert a == [a[0]] + a[1..] && b == [b[0]] + b[1..]; }
    }
  }

  lemma {:induction false} LexLessTransitive(a: string, b: string, c: string)
    requires LexLess(a, b) && LexLess(b, c)
    ensures LexLess(a, c)
  {
    if a != [] && a[0] == b[0] && b[0] == c[0] {
      LexLessTransitive(a[1..], b[1..], c[1..]);
    }
  }

  lemma {:induction false} LexLessAsymmetric(a: string, b: string)
    requires LexLess(a, b)
    ensures !LexLess(b, a)
  {
    if a != [] && a[0] == b[0] {
      LexLessAsymmetric(a[1..], b[1..]);
    }
  }
}
