/** String operations the storage layer relies on: Java's `String.contains`,
    `indexOf` and `replaceFirst` (with a literal pattern), hutool's
    `StrUtil.replace` (replace every occurrence, left to right), and the
    backslash-to-slash normalisation every backend applies to its URL. */
module Text {

  /** `sub` occurs in `s` starting at index `i`. */
  predicate OccursAt(s: string, sub: string, i: int) {
    0 <= i && i + |sub| <= |s| && s[i..i + |sub|] == sub
  }

  /** Moving one character past the head of `s` shifts every occurrence by one. */
  lemma OccursShift(s: string, sub: string)
    requires |s| >= 1
    ensures forall k :: 1 <= k ==> (OccursAt(s, sub, k) <==> OccursAt(s[1..], sub, k - 1))
  {
    forall k | 1 <= k
      ensures OccursAt(s, sub, k) <==> OccursAt(s[1..], sub, k - 1)
    {
      if k + |sub| <= |s| {
        assert s[1..][k - 1..] == s[k..];
        assert s[1..][k - 1..k - 1 + |sub|] == s[k..][..|sub|] == s[k..k + |sub|];
      }
    }
  }

  /** Index of the first occurrence of `sub` in `s`, or -1 (Java's `String.indexOf`). */
  function IndexOf(s: string, sub: string): (r: int)
    ensures -1 <= r <= |s|
    ensures r >= 0 ==> OccursAt(s, sub, r) && forall j :: 0 <= j < r ==> !OccursAt(s, sub, j)
    ensures r < 0 ==> r == -1 && forall j :: !OccursAt(s, sub, j)
    decreases |s|
  {
    if |s| < |sub| then -1
    else if s[..|sub|] == sub then 0
    else
      var k := IndexOf(s[1..], sub);
      OccursShift(s, sub);
      if k < 0 then -1 else k + 1
  }

  /** Java's `String.contains`. */
  predicate Contains(s: string, sub: string) {
    IndexOf(s, sub) >= 0
  }

  predicate StartsWith(s: string, prefix: string) {
    |prefix| <= |s| && s[..|prefix|] == prefix
  }

  /** A one-character pattern is contained exactly when that character occurs. */
  lemma ContainsChar(s: string, c: char)
    ensures Contains(s, [c]) <==> c in s
  {
    if c in s {
      var i :| 0 <= i < |s| && s[i] == c;
      assert s[i..i + 1] == [c];
      assert OccursAt(s, [c], i);
    }
    if Contains(s, [c]) {
      var r := IndexOf(s, [c]);
      assert s[r..r + 1] == [c];
      assert s[r] == c;
    }
  }

  /** Java's `String.replaceFirst` for a pattern without regular-expression
      metacharacters: the first occurrence of `from` is replaced by `to`. */
  function ReplaceFirst(s: string, from: string, to: string): (r: string)
    ensures !Contains(s, from) ==> r == s
    ensures Contains(s, from) ==> |r| == |s| - |from| + |to|
    ensures Contains(s, from) ==> r[..IndexOf(s, from)] == s[..IndexOf(s, from)]
    ensures Contains(s, from) ==> r[IndexOf(s, from)..] == to + s[IndexOf(s, from) + |from|..]
  {
    var i := IndexOf(s, from);
    if i < 0 then s else s[..i] + to + s[i + |from|..]
  }

  /** hutool's `StrUtil.replace`: every occurrence of `from`, scanning left to
      right without overlap, is replaced by `to`; an empty pattern changes nothing. */
  function ReplaceAll(s: string, from: string, to: string): (r: string)
    ensures |from| == |to| ==> |r| == |s|
    ensures from == [] ==> r == s
    decreases |s|
  {
    if from == [] || |s| < |from| then s
    else if s[..|from|] == from then to + ReplaceAll(s[|from|..], from, to)
    else [s[0]] + ReplaceAll(s[1..], from, to)
  }

  const SLASH: string := "/"
  const BACKSLASH: string := "\\"
  const DOUBLE_BACKSLASH: string := "\\\\"

  /** The two replacements every backend applies to a URL: first each double
      backslash, then each remaining backslash, becomes "/". */
  function NormaliseSeparators(s: string): (r: string)
    ensures '\\' !in r
  {
    var once := ReplaceAll(s, DOUBLE_BACKSLASH, SLASH);
    ReplaceBackslashLeavesNone(once);
    ReplaceAll(once, BACKSLASH, SLASH)
  }

  lemma {:induction false} ReplaceBackslashLeavesNone(s: string)
    ensures '\\' !in ReplaceAll(s, BACKSLASH, SLASH)
    decreases |s|
  {
    if |s| >= 1 {
      ReplaceBackslashLeavesNone(s[1..]);
    }
  }

  /** A prefix that cannot start an occurrence is copied through unchanged. */
  lemma {:induction false} ReplaceAllSkipsPrefix(x: string, y: string, from: string, to: string)
    requires from != [] && from[0] !in x
    ensures ReplaceAll(x + y, from, to) == x + ReplaceAll(y, from, to)
    decreases |x|
  {
    if x == [] {
      assert x + y == y;
    } else {
      var xy := x + y;
      var tail := x[1..] + y;
      assert xy[0] == x[0] && xy[1..] == tail;
      if |xy| >= |from| {
        assert xy[..|from|][0] == x[0];
        ReplaceAllSkipsPrefix(x[1..], y, from, to);
        assert ReplaceAll(xy, from, to) == [x[0]] + ReplaceAll(tail, from, to);
        assert x == [x[0]] + x[1..];
      }
    }
  }

  /** A suffix that holds no character of the pattern is copied through unchanged. */
  lemma {:induction false} ReplaceAllKeepsSuffix(x: string, q: string, from: string, to: string)
    requires from != []
    requires forall c :: c in q ==> c !in from
    ensures ReplaceAll(x + q, from, to) == ReplaceAll(x, from, to) + q
    decreases |x|
  {
    var xq := x + q;
    if x == [] {
      ReplaceAllSkipsPrefix(q, [], from, to);
      assert q + [] == q;
      assert xq == q;
    } else if |xq| < |from| {
    } else if xq[..|from|] == from {
      MatchStaysInPrefix(x, q, from);
      assert xq[|from|..] == x[|from|..] + q;
      ReplaceAllKeepsSuffix(x[|from|..], q, from, to);
    } else {
      assert xq[1..] == x[1..] + q;
      if |x| >= |from| {
        assert x[..|from|] == xq[..|from|];
      }
      ReplaceAllKeepsSuffix(x[1..], q, from, to);
    }
  }

  /** An occurrence at the head of x + q lies inside x when q holds no character of it. */
  lemma MatchStaysInPrefix(x: string, q: string, from: string)
    requires from != [] && |x + q| >= |from| && (x + q)[..|from|] == from
    requires forall c :: c in q ==> c !in from
    ensures |x| >= |from| && x[..|from|] == from
  {
    if |x| < |from| {
      StraddlingMatch(x, q, from);
      assert false;
    }
    assert x[..|from|] == (x + q)[..|from|];
  }

  lemma StraddlingMatch(x: string, q: string, from: string)
    requires |x| < |from| <= |x + q| && (x + q)[..|from|] == from
    ensures q[0] in q && q[0] in from
  {
    assert (x + q)[..|from|][|x|] == q[0];
  }

  /** Replacing is the identity when the pattern does not occur. */
  lemma {:induction false} ReplaceAllWithoutOccurrence(s: string, from: string, to: string)
    requires !Contains(s, from)
    ensures ReplaceAll(s, from, to) == s
    decreases |s|
  {
    if from != [] && |s| >= |from| {
      assert !OccursAt(s, from, 0);
      OccursShift(s, from);
      forall j ensures !OccursAt(s[1..], from, j) {
        if j >= 0 {
          assert !OccursAt(s, from, j + 1);
        }
      }
      assert !Contains(s[1..], from);
      ReplaceAllWithoutOccurrence(s[1..], from, to);
    }
  }

  /** Replace one character by another everywhere (how `Paths.get` turns "/" into
      the platform separator). */
  function MapChar(s: string, a: char, b: char): string {
    seq(|s|, i requires 0 <= i < |s| => if s[i] == a then b else s[i])
  }

  /** Replacing the one-character string [c] is mapping the character c. */
  lemma {:induction false} ReplaceCharIsMapChar(s: string, c: char, d: char)
    ensures ReplaceAll(s, [c], [d]) == MapChar(s, c, d)
    decreases |s|
  {
    if |s| >= 1 {
      ReplaceCharIsMapChar(s[1..], c, d);
      assert MapChar(s, c, d) == MapChar(s[..1], c, d) + MapChar(s[1..], c, d);
    }
  }

  /** A string without backslashes is left as it is by the normalisation. */
  lemma NormaliseKeepsPlainText(s: string)
    requires '\\' !in s
    ensures NormaliseSeparators(s) == s
  {
    ReplaceAllSkipsPrefix(s, [], DOUBLE_BACKSLASH, SLASH);
    ReplaceAllSkipsPrefix(s, [], BACKSLASH, SLASH);
    assert s + [] == s;
  }

  /** A backslash-free prefix passes through the normalisation unchanged. */
  lemma NormaliseKeepsPlainPrefix(x: string, y: string)
    requires '\\' !in x
    ensures NormaliseSeparators(x + y) == x + NormaliseSeparators(y)
  {
    ReplaceAllSkipsPrefix(x, y, DOUBLE_BACKSLASH, SLASH);
    ReplaceAllSkipsPrefix(x, ReplaceAll(y, DOUBLE_BACKSLASH, SLASH), BACKSLASH, SLASH);
  }

  /** A double backslash becomes one "/" (and not two). */
  lemma NormaliseCollapsesDoubleBackslash(a: string, b: string)
    requires '\\' !in a
    ensures NormaliseSeparators(a + DOUBLE_BACKSLASH + b) == a + SLASH + NormaliseSeparators(b)
  {
    var once := ReplaceAll(b, DOUBLE_BACKSLASH, SLASH);
    assert a + DOUBLE_BACKSLASH + b == a + (DOUBLE_BACKSLASH + b);
    ReplaceAllSkipsPrefix(a, DOUBLE_BACKSLASH + b, DOUBLE_BACKSLASH, SLASH);
    assert (DOUBLE_BACKSLASH + b)[..2] == DOUBLE_BACKSLASH;
    assert (DOUBLE_BACKSLASH + b)[2..] == b;
    assert ReplaceAll(a + DOUBLE_BACKSLASH + b, DOUBLE_BACKSLASH, SLASH) == (a + SLASH) + once;
    ReplaceAllSkipsPrefix(a + SLASH, once, BACKSLASH, SLASH);
  }

  /** A path written with backslash separators (no empty segment, no backslash of
      its own) normalises back to its "/" form, also when embedded between two
      backslash-free parts. */
  lemma NormalisePlatformPath(p: string, f: string, q: string)
    requires '\\' !in p && '\\' !in f && '\\' !in q
    requires !Contains(f, "//")
    ensures NormaliseSeparators(p + MapChar(f, '/', '\\') + q) == p + f + q
  {
    var m := MapChar(f, '/', '\\');
    // m has no two adjacent backslashes, because f has no "//".
    forall j ensures !OccursAt(m, DOUBLE_BACKSLASH, j) {
      if OccursAt(m, DOUBLE_BACKSLASH, j) {
        assert m[j..j + 2][0] == m[j] && m[j..j + 2][1] == m[j + 1];
        assert f[j] == '/' && f[j + 1] == '/';
        assert f[j..j + 2] == "//";
        assert OccursAt(f, "//", j);
        assert false;
      }
    }
    assert !Contains(m, DOUBLE_BACKSLASH);
    // first pass
    assert p + m + q == p + (m + q);
    ReplaceAllSkipsPrefix(p, m + q, DOUBLE_BACKSLASH, SLASH);
    ReplaceAllKeepsSuffix(m, q, DOUBLE_BACKSLASH, SLASH);
    ReplaceAllWithoutOccurrence(m, DOUBLE_BACKSLASH, SLASH);
    assert ReplaceAll(p + m + q, DOUBLE_BACKSLASH, SLASH) == p + (m + q);
    // second pass
    ReplaceAllSkipsPrefix(p, m + q, BACKSLASH, SLASH);
    ReplaceAllKeepsSuffix(m, q, BACKSLASH, SLASH);
    ReplaceCharIsMapChar(m, '\\', '/');
    assert MapChar(m, '\\', '/') == f;
  }
}
