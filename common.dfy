/**
 * Shared vocabulary of the workspace model: optional values, plane points,
 * and the handful of string operations the stores use (prefix/suffix tests,
 * substring search, ASCII lower-casing, blank test, and the UTF-16
 * code-unit order that JavaScript's default `sort()` applies to strings).
 */
module Common {

  /** A JavaScript value that may be `undefined`/`null`. */
  datatype Option<T> = None | Some(value: T) {
    function GetOr(default: T): T {
      match this
      case Some(v) => v
      case None => default
    }
  }

  /** The outcome of an operation that may throw: a value, or the reason it failed. */
  datatype Result<T> = Ok(value: T) | Err(error: string)

  /** An optional JavaScript string that is neither `undefined` nor empty. */
  predicate Truthy(s: Option<string>) {
    s.Some? && s.value != ""
  }

  /** An `{x, y}` pair: grid cell, canvas position or window position. */
  datatype Point = Point(x: int, y: int)

  predicate StartsWith(s: string, prefix: string) {
    |prefix| <= |s| && s[..|prefix|] == prefix
  }

  predicate EndsWith(s: string, suffix: string) {
    |suffix| <= |s| && s[|s| - |suffix|..] == suffix
  }

  predicate OccursAt(s: string, q: string, i: int) {
    0 <= i && i + |q| <= |s| && s[i..i + |q|] == q
  }

  /** `s.includes(q)`. */
  predicate Contains(s: string, q: string) {
    exists i | 0 <= i <= |s| - |q| :: OccursAt(s, q, i)
  }

  function LowerChar(c: char): char {
    if 'A' <= c <= 'Z' then (c as int + 32) as char else c
  }

  /** `s.toLowerCase()`, restricted to ASCII letters. */
  function ToLower(s: string): (r: string)
    ensures |r| == |s|
    ensures forall i :: 0 <= i < |s| ==> r[i] == LowerChar(s[i])
  {
    if s == [] then [] else [LowerChar(s[0])] + ToLower(s[1..])
  }

  /**
   * The characters that `String.prototype.trim` removes: the white space
   * (tab, vertical tab, form feed, byte order mark and every space
   * separator) and the line terminators of the ECMAScript grammar.
   */
  predicate IsSpace(c: char) {
    || c == '\t' || c == '\n' || c == '\U{B}' || c == '\U{C}' || c == '\r'
    || c == ' ' || c == '\U{A0}' || c == '\U{1680}' || '\U{2000}' <= c <= '\U{200A}'
    || c == '\U{2028}' || c == '\U{2029}' || c == '\U{202F}' || c == '\U{205F}'
    || c == '\U{3000}' || c == '\U{FEFF}'
  }

  /** `s.trim() === ""`. */
  predicate IsBlank(s: string) {
    forall i | 0 <= i < |s| :: IsSpace(s[i])
  }

  /**
   * Where a character sits in UTF-16 code-unit order: its first code unit,
   * scaled, then its second one. A character outside the Basic Multilingual
   * Plane starts with a high surrogate (0xD800-0xDBFF), so it sorts before
   * the characters 0xE000-0xFFFF although its code point is larger.
   */
  function UnitKey(c: char): (r: int)
    ensures (c as int) < 0x10000 ==> r == (c as int) * 0x400
    ensures (c as int) >= 0x10000 ==> 0xD800 * 0x400 <= r < 0xDC00 * 0x400
  {
    if (c as int) < 0x10000 then (c as int) * 0x400 else 0xD800 * 0x400 + ((c as int) - 0x10000)
  }

  /** Two characters share a place in code-unit order only if they are equal. */
  lemma UnitKeyInjective(c: char, d: char)
    requires UnitKey(c) == UnitKey(d)
    ensures c == d
  {
  }

  /**
   * The order of JavaScript's default `Array.prototype.sort` on strings:
   * UTF-16 code units compared one by one, a proper prefix first.
   */
  predicate LexLeq(a: string, b: string) {
    if a == [] then true
    else if b == [] then false
    else if a[0] != b[0] then UnitKey(a[0]) < UnitKey(b[0])
    else LexLeq(a[1..], b[1..])
  }

  /** Past the Basic Multilingual Plane, code-unit order is not code-point order. */
  lemma SupplementaryBeforeHighBmp()
    ensures LexLeq("\U{10000}", "\U{FFFF}") && !LexLeq("\U{FFFF}", "\U{10000}")
  {
  }

  lemma {:induction false} LexLeqTotal(a: string, b: string)
    ensures LexLeq(a, b) || LexLeq(b, a)
  {
    if a != [] && b != [] && a[0] != b[0] && UnitKey(a[0]) == UnitKey(b[0]) {
      UnitKeyInjective(a[0], b[0]);
    } else if a != [] && b != [] && a[0] == b[0] {
      LexLeqTotal(a[1..], b[1..]);
    }
  }

  lemma {:induction false} LexLeqTransitive(a: string, b: string, c: string)
    requires LexLeq(a, b) && LexLeq(b, c)
    ensures LexLeq(a, c)
  {
    if a != [] && b != [] && c != [] && a[0] == b[0] && b[0] == c[0] {
      LexLeqTransitive(a[1..], b[1..], c[1..]);
    }
  }

  lemma {:induction false} LexLeqAntisymmetric(a: string, b: string)
    requires LexLeq(a, b) && LexLeq(b, a)
    ensures a == b
  {
    if a != [] && b != [] {
      LexLeqAntisymmetric(a[1..], b[1..]);
      assert a == [a[0]] + a[1..] && b == [b[0]] + b[1..];
    }
  }

  /**
   * `xs.filter(keep)`: the elements that satisfy `keep`, each as often as in
   * `xs`, in their original order (see `FilterAppend`).
   */
  function Filter<T(!new)>(xs: seq<T>, keep: T -> bool): (r: seq<T>)
    ensures |r| <= |xs|
    ensures forall x :: x in r <==> x in xs && keep(x)
  {
    if xs == [] then []
    else
      assert xs == [xs[0]] + xs[1..];
      (if keep(xs[0]) then [xs[0]] else []) + Filter(xs[1..], keep)
  }

  /** `sub` is `xs` with some elements left out, the rest in their order. */
  predicate IsSubsequence<T(==)>(sub: seq<T>, xs: seq<T>)
    decreases |xs|
  {
    if sub == [] then true
    else if xs == [] then false
    else if sub[0] == xs[0] then IsSubsequence(sub[1..], xs[1..])
    else IsSubsequence(sub, xs[1..])
  }

  /** `xs.filter(keep)` keeps the accepted elements in their order. */
  lemma {:induction false} FilterInOrder<T(!new)>(xs: seq<T>, keep: T -> bool)
    ensures IsSubsequence(Filter(xs, keep), xs)
    decreases |xs|
  {
    if xs != [] {
      FilterInOrder(xs[1..], keep);
      var r := Filter(xs[1..], keep);
      if keep(xs[0]) {
        assert Filter(xs, keep) == [xs[0]] + r;
        assert ([xs[0]] + r)[1..] == r;
      } else {
        assert Filter(xs, keep) == r;
        if r != [] {
          assert r[0] in r;
          assert r[0] != xs[0];
        }
      }
    }
  }

  /** Filtering keeps every accepted element as often as it occurs, and no other. */
  lemma {:induction false} FilterCount<T(!new)>(xs: seq<T>, keep: T -> bool, x: T)
    ensures multiset(Filter(xs, keep))[x] == if keep(x) then multiset(xs)[x] else 0
  {
    if xs != [] {
      FilterCount(xs[1..], keep, x);
      assert xs == [xs[0]] + xs[1..];
    }
  }

  /** Filtering shortens a sequence that holds a rejected element. */
  lemma {:induction false} FilterDropsRejected<T(!new)>(xs: seq<T>, keep: T -> bool, i: int)
    requires 0 <= i < |xs| && !keep(xs[i])
    ensures |Filter(xs, keep)| < |xs|
  {
    if i > 0 {
      FilterDropsRejected(xs[1..], keep, i - 1);
    }
  }

  /** Filtering works piecewise, so the kept elements stay in order. */
  lemma {:induction false} FilterAppend<T(!new)>(xs: seq<T>, ys: seq<T>, keep: T -> bool)
    ensures Filter(xs + ys, keep) == Filter(xs, keep) + Filter(ys, keep)
  {
    if xs != [] {
      var head := if keep(xs[0]) then [xs[0]] else [];
      assert (xs + ys)[0] == xs[0];
      assert (xs + ys)[1..] == xs[1..] + ys;
      FilterAppend(xs[1..], ys, keep);
      calc {
        Filter(xs + ys, keep);
        head + Filter(xs[1..] + ys, keep);
        head + (Filter(xs[1..], keep) + Filter(ys, keep));
        (head + Filter(xs[1..], keep)) + Filter(ys, keep);
      }
    } else {
      assert xs + ys == ys;
    }
  }

  /** Filtering keeps everything exactly when nothing is rejected. */
  lemma {:induction false} FilterAllKept<T(!new)>(xs: seq<T>, keep: T -> bool)
    requires forall i | 0 <= i < |xs| :: keep(xs[i])
    ensures Filter(xs, keep) == xs
  {
    if xs != [] {
      FilterAllKept(xs[1..], keep);
    }
  }

  /** `xs.findIndex(p)`: the first index whose element satisfies `p`, or -1. */
  function FirstIndex<T>(xs: seq<T>, p: T -> bool): (k: int)
    ensures -1 <= k < |xs|
    ensures 0 <= k ==> p(xs[k]) && forall j | 0 <= j < k :: !p(xs[j])
    ensures k == -1 ==> forall j | 0 <= j < |xs| :: !p(xs[j])
  {
    if xs == [] then -1
    else if p(xs[0]) then 0
    else
      var k := FirstIndex(xs[1..], p);
      if k == -1 then -1 else k + 1
  }

  /** `xs.find(p)`: the first element that satisfies `p`, if any. */
  function Find<T>(xs: seq<T>, p: T -> bool): (r: Option<T>)
    ensures r.Some? <==> exists i | 0 <= i < |xs| :: p(xs[i])
    ensures r.Some? ==> exists k | 0 <= k < |xs| :: xs[k] == r.value && p(xs[k]) && forall j | 0 <= j < k :: !p(xs[j])
  {
    var k := FirstIndex(xs, p);
    if k < 0 then None else Some(xs[k])
  }

  /** `find` returns the first element that passes. */
  lemma FindFirst<T>(xs: seq<T>, p: T -> bool, i: int)
    requires 0 <= i < |xs| && p(xs[i])
    requires forall j | 0 <= j < i :: !p(xs[j])
    ensures Find(xs, p) == Some(xs[i])
  {
    var k :| 0 <= k < |xs| && xs[k] == Find(xs, p).value && p(xs[k]) && forall j | 0 <= j < k :: !p(xs[j]);
    assert k == i;
  }

  /** Filtering twice is filtering once by both conditions. */
  lemma {:induction false} FilterFilter<T(!new)>(xs: seq<T>, p: T -> bool, q: T -> bool, both: T -> bool)
    requires forall x :: both(x) == (p(x) && q(x))
    ensures Filter(Filter(xs, p), q) == Filter(xs, both)
  {
    if xs != [] {
      FilterFilter(xs[1..], p, q, both);
      var fp := Filter(xs, p);
      if p(xs[0]) {
        assert fp == [xs[0]] + Filter(xs[1..], p);
        assert fp[0] == xs[0] && fp[1..] == Filter(xs[1..], p);
        assert Filter(fp, q) == (if q(xs[0]) then [xs[0]] else []) + Filter(Filter(xs[1..], p), q);
      } else {
        assert fp == Filter(xs[1..], p);
      }
    }
  }

  predicate Distinct<T(==)>(xs: seq<T>) {
    forall i, j | 0 <= i < j < |xs| :: xs[i] != xs[j]
  }

  /** A sequence is duplicate-free exactly when no element occurs twice. */
  lemma {:induction false} DistinctIffSingle<T>(xs: seq<T>)
    ensures Distinct(xs) <==> forall x :: multiset(xs)[x] <= 1
  {
    if Distinct(xs) {
      if xs != [] {
        assert xs == [xs[0]] + xs[1..];
        assert Distinct(xs[1..]);
        DistinctIffSingle(xs[1..]);
        assert xs[0] !in xs[1..];
      }
    } else {
      var i, j :| 0 <= i < j < |xs| && xs[i] == xs[j];
      assert xs == xs[..j] + xs[j..];
      assert xs[i] in xs[..j] && xs[j] in xs[j..];
      assert multiset(xs)[xs[i]] == multiset(xs[..j])[xs[i]] + multiset(xs[j..])[xs[i]];
    }
  }

  /** A rearrangement of a filtered duplicate-free sequence is duplicate-free and holds exactly the kept elements. */
  lemma PermutedFilter<T(!new)>(xs: seq<T>, keep: T -> bool, ys: seq<T>)
    requires Distinct(xs) && multiset(ys) == multiset(Filter(xs, keep))
    ensures Distinct(ys) && |ys| == |Filter(xs, keep)|
    ensures forall x :: x in ys <==> x in xs && keep(x)
  {
    DistinctIffSingle(xs);
    forall x ensures multiset(ys)[x] <= 1 {
      FilterCount(xs, keep, x);
    }
    DistinctIffSingle(ys);
    assert |multiset(ys)| == |multiset(Filter(xs, keep))|;
    forall x ensures x in ys <==> x in xs && keep(x) {
      assert x in ys <==> x in multiset(ys);
      assert x in Filter(xs, keep) <==> x in multiset(Filter(xs, keep));
    }
  }

  /** Filtering a duplicate-free sequence leaves it duplicate-free. */
  lemma FilterDistinct<T(!new)>(xs: seq<T>, keep: T -> bool)
    requires Distinct(xs)
    ensures Distinct(Filter(xs, keep))
  {
    DistinctIffSingle(xs);
    forall x ensures multiset(Filter(xs, keep))[x] <= 1 {
      FilterCount(xs, keep, x);
    }
    DistinctIffSingle(Filter(xs, keep));
  }

  /** A duplicate-free sequence whose elements all occur in `zs` is no longer than `zs`. */
  lemma DistinctWithin<T>(ys: seq<T>, zs: seq<T>)
    requires Distinct(ys) && forall x | x in ys :: x in zs
    ensures |ys| <= |zs|
  {
    DistinctIffSingle(ys);
    forall x ensures multiset(ys)[x] <= multiset(zs)[x] {
      if x in ys {
        assert x in multiset(zs);
      }
    }
    assert multiset(ys) <= multiset(zs);
    assert multiset(zs) == multiset(ys) + (multiset(zs) - multiset(ys));
  }
}
