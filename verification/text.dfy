/** Python string behaviour the views rely on: `str.strip()` and the
    code-point order that `sorted()` uses for strings. */
module Text {

  /** Python's `str.isspace()`: the characters `str.strip()` removes. */
  predicate IsSpace(c: char) {
    || c == ' '
    || ('\t' <= c <= '\r')
    || ('\U{1C}' <= c <= '\U{1F}')
    || c == '\U{85}'
    || c == '\U{A0}'
    || c == '\U{1680}'
    || ('\U{2000}' <= c <= '\U{200A}')
    || c == '\U{2028}'
    || c == '\U{2029}'
    || c == '\U{202F}'
    || c == '\U{205F}'
    || c == '\U{3000}'
  }

  predicate AllSpace(s: string) {
    forall i :: 0 <= i < |s| ==> IsSpace(s[i])
  }

  /** Number of whitespace characters at the front of `s`. */
  function LeadingSpaces(s: string): (n: nat)
    ensures n <= |s|
    ensures AllSpace(s[..n])
    ensures n < |s| ==> !IsSpace(s[n])
  {
    if |s| > 0 && IsSpace(s[0]) then
      var k := LeadingSpaces(s[1..]);
      LeadingStep(s, k);
      k + 1
    else 0
  }

  /** One more whitespace character at the front extends a whitespace head. */
  lemma LeadingStep(s: string, k: nat)
    requires 0 < |s| && IsSpace(s[0])
    requires k <= |s| - 1 && AllSpace(s[1..][..k])
    requires k < |s| - 1 ==> !IsSpace(s[1..][k])
    ensures AllSpace(s[..k + 1])
    ensures k + 1 < |s| ==> !IsSpace(s[k + 1])
  {
    assert s[..k + 1] == [s[0]] + s[1..][..k];
  }

  /** Number of whitespace characters at the end of `s`. */
  function TrailingSpaces(s: string): (n: nat)
    ensures n <= |s|
    ensures AllSpace(s[|s| - n..])
    ensures n < |s| ==> !IsSpace(s[|s| - n - 1])
  {
    if |s| > 0 && IsSpace(s[|s| - 1]) then
      var k := TrailingSpaces(s[..|s| - 1]);
      TrailingStep(s, k);
      k + 1
    else 0
  }

  /** One more whitespace character at the end extends a whitespace tail. */
  lemma TrailingStep(s: string, k: nat)
    requires 0 < |s| && IsSpace(s[|s| - 1])
    requires k <= |s| - 1 && AllSpace(s[..|s| - 1][|s| - 1 - k..])
    requires k < |s| - 1 ==> !IsSpace(s[..|s| - 1][|s| - 1 - k - 1])
    ensures AllSpace(s[|s| - (k + 1)..])
    ensures k + 1 < |s| ==> !IsSpace(s[|s| - (k + 1) - 1])
  {
    var tail := s[|s| - (k + 1)..];
    var prev := s[..|s| - 1][|s| - 1 - k..];
    forall i | 0 <= i < |tail| ensures IsSpace(tail[i]) {
      if i < k { assert tail[i] == prev[i]; }
    }
    if k + 1 < |s| { assert s[..|s| - 1][|s| - 1 - k - 1] == s[|s| - (k + 1) - 1]; }
  }

  /** `r` is what is left of `s` once the whitespace at both ends is cut off:
      a contiguous piece of `s`, only whitespace around it, and no whitespace
      at its own ends. */
  ghost predicate StripsTo(s: string, r: string) {
    exists a, b ::
      && 0 <= a <= b <= |s|
      && r == s[a..b]
      && AllSpace(s[..a])
      && AllSpace(s[b..])
      && (r != [] ==> !IsSpace(r[0]) && !IsSpace(r[|r| - 1]))
  }

  /** Python's `str.strip()` with no argument. */
  function Strip(s: string): (r: string)
    ensures StripsTo(s, r)
    ensures r == [] <==> AllSpace(s)
    ensures r != [] ==> !IsSpace(r[0]) && !IsSpace(r[|r| - 1])
  {
    var a := LeadingSpaces(s);
    var n := TrailingSpaces(s[a..]);
    SuffixTail(s, a, n);
    StripEnds(s, a, |s| - n);
    s[a..|s| - n]
  }

  /** The tail of a suffix is a tail of the whole. */
  lemma SuffixTail(s: string, a: nat, n: nat)
    requires a <= |s| && n <= |s| - a
    ensures s[a..][|s| - a - n..] == s[|s| - n..]
    ensures n < |s| - a ==> s[a..][|s| - a - n - 1] == s[|s| - n - 1]
  {
  }

  lemma StripEnds(s: string, a: nat, b: nat)
    requires a <= b <= |s|
    requires AllSpace(s[..a]) && AllSpace(s[b..])
    requires a < |s| ==> !IsSpace(s[a])
    requires a < b ==> !IsSpace(s[b - 1])
    ensures StripsTo(s, s[a..b])
    ensures s[a..b] == [] <==> AllSpace(s)
    ensures s[a..b] != [] ==> !IsSpace(s[a..b][0]) && !IsSpace(s[a..b][b - a - 1])
  {
    var r := s[a..b];
    if r == [] {
      AllSpaceJoin(s, a);
    } else {
      assert r[0] == s[a] && r[|r| - 1] == s[b - 1];
    }
  }

  lemma AllSpaceJoin(s: string, a: nat)
    requires a <= |s| && AllSpace(s[..a]) && AllSpace(s[a..])
    ensures AllSpace(s)
  {
    forall i | 0 <= i < |s| ensures IsSpace(s[i]) {
      if i < a { assert s[i] == s[..a][i]; }
      else { assert s[i] == s[a..][i - a]; }
    }
  }

  /** Stripping twice is stripping once. */
  lemma StripIdempotent(s: string)
    ensures Strip(Strip(s)) == Strip(s)
  {
    var r := Strip(s);
    if r != [] {
      assert LeadingSpaces(r) == 0;
      assert TrailingSpaces(r) == 0;
      assert r[0..][..|r|] == r;
    }
  }

  // ---------------------------------------------------------------------
  // Code-point order, as Python compares `str` values

  /** `a` sorts strictly before `b`: first differing code point decides, and a
      proper prefix sorts first. */
  predicate Less(a: string, b: string) {
    if |a| == 0 then |b| > 0
    else if |b| == 0 then false
    else a[0] < b[0] || (a[0] == b[0] && Less(a[1..], b[1..]))
  }

  lemma {:induction false} LessIrreflexive(a: string)
    ensures !Less(a, a)
  {
    if |a| > 0 { LessIrreflexive(a[1..]); }
  }

  lemma {:induction false} LessAsymmetric(a: string, b: string)
    ensures Less(a, b) ==> !Less(b, a)
  {
    if |a| > 0 && |b| > 0 && a[0] == b[0] { LessAsymmetric(a[1..], b[1..]); }
  }

  lemma {:induction false} LessTransitive(a: string, b: string, c: string)
    requires Less(a, b) && Less(b, c)
    ensures Less(a, c)
  {
    if |a| > 0 && |b| > 0 && |c| > 0 && a[0] == b[0] == c[0] {
      LessTransitive(a[1..], b[1..], c[1..]);
    }
  }

  lemma {:induction false} LessTotal(a: string, b: string)
    ensures a == b || Less(a, b) || Less(b, a)
  {
    if |a| > 0 && |b| > 0 && a[0] == b[0] {
      LessTotal(a[1..], b[1..]);
      assert a == [a[0]] + a[1..] && b == [b[0]] + b[1..];
    }
  }

  /** Sorted ascending with no repeats, the shape of `sorted(set(...))`. */
  predicate StrictlySorted(xs: seq<string>) {
    forall i, j :: 0 <= i < j < |xs| ==> Less(xs[i], xs[j])
  }

  function Elems(xs: seq<string>): set<string> {
    set x | x in xs
  }

  lemma ElemsCons(xs: seq<string>)
    requires |xs| > 0
    ensures Elems(xs) == {xs[0]} + Elems(xs[1..])
  {
    assert xs == [xs[0]] + xs[1..];
  }

  /** The head of a strictly sorted list is below every other element. */
  lemma HeadIsLeast(xs: seq<string>, y: string)
    requires StrictlySorted(xs) && y in Elems(xs)
    ensures y == xs[0] || Less(xs[0], y)
  {
    var j :| 0 <= j < |xs| && xs[j] == y;
  }

  lemma PrependSorted(k: string, xs: seq<string>)
    requires StrictlySorted(xs)
    requires forall y :: y in Elems(xs) ==> Less(k, y)
    ensures StrictlySorted([k] + xs)
  {
    var r := [k] + xs;
    forall i, j | 0 <= i < j < |r| ensures Less(r[i], r[j]) {
      assert r[j] == xs[j - 1] && xs[j - 1] in Elems(xs);
    }
  }

  /** Adds `k` to a strictly sorted list, keeping it strictly sorted. */
  function Insert(xs: seq<string>, k: string): (r: seq<string>)
    requires StrictlySorted(xs)
    ensures StrictlySorted(r)
    ensures Elems(r) == Elems(xs) + {k}
  {
    if |xs| == 0 then [k]
    else if k == xs[0] then xs
    else if Less(k, xs[0]) then
      assert forall y :: y in Elems(xs) ==> Less(k, y) by {
        forall y | y in Elems(xs) ensures Less(k, y) {
          HeadIsLeast(xs, y);
          if y != xs[0] { LessTransitive(k, xs[0], y); }
        }
      }
      PrependSorted(k, xs);
      ElemsCons([k] + xs);
      assert ([k] + xs)[1..] == xs;
      [k] + xs
    else
      var tail := Insert(xs[1..], k);
      ElemsCons(xs);
      LessTotal(k, xs[0]);
      assert forall y :: y in Elems(tail) ==> Less(xs[0], y) by {
        forall y | y in Elems(tail) ensures Less(xs[0], y) {
          if y != k { HeadIsLeast(xs, y); }
        }
      }
      PrependSorted(xs[0], tail);
      ElemsCons([xs[0]] + tail);
      assert ([xs[0]] + tail)[1..] == tail;
      [xs[0]] + tail
  }

  lemma HeadNotInTail(xs: seq<string>)
    requires StrictlySorted(xs) && |xs| > 0
    ensures StrictlySorted(xs[1..])
    ensures xs[0] !in Elems(xs[1..])
  {
    forall j | 0 <= j < |xs| - 1 ensures xs[1..][j] != xs[0] {
      assert Less(xs[0], xs[j + 1]);
      LessIrreflexive(xs[0]);
    }
  }

  /** A strictly sorted list is determined by its elements. */
  lemma {:induction false} SortedUnique(xs: seq<string>, ys: seq<string>)
    requires StrictlySorted(xs) && StrictlySorted(ys)
    requires Elems(xs) == Elems(ys)
    ensures xs == ys
  {
    assert xs == [] <==> Elems(xs) == {} by { if xs != [] { assert xs[0] in Elems(xs); } }
    assert ys == [] <==> Elems(ys) == {} by { if ys != [] { assert ys[0] in Elems(ys); } }
    if xs != [] {
      HeadIsLeast(xs, ys[0]);
      HeadIsLeast(ys, xs[0]);
      LessAsymmetric(xs[0], ys[0]);
      HeadNotInTail(xs);
      HeadNotInTail(ys);
      ElemsCons(xs);
      ElemsCons(ys);
      SortedUnique(xs[1..], ys[1..]);
      assert xs == [xs[0]] + xs[1..] && ys == [ys[0]] + ys[1..];
    }
  }

  /** No element occurs twice in a strictly sorted list. */
  lemma SortedDistinct(xs: seq<string>, i: int, j: int)
    requires StrictlySorted(xs)
    requires 0 <= i < |xs| && 0 <= j < |xs|
    ensures xs[i] == xs[j] ==> i == j
  {
    if i != j { LessIrreflexive(xs[i]); LessIrreflexive(xs[j]); }
  }
}
