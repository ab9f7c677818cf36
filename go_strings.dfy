/**
 * The functions of Go's `strings` package that the address and domain
 * helpers rely on, restricted to the separators they are called with.
 */
module GoStrings {

  /** strings.Count(s, string(c)): the number of occurrences of `c` in `s`. */
  function Count(s: string, c: char): (n: nat)
    ensures n <= |s|
    ensures n == 0 <==> c !in s
  {
    if s == [] then 0 else (if s[0] == c then 1 else 0) + Count(s[1..], c)
  }

  /** strings.LastIndex(s, string(c)): the last position of `c`, or -1. */
  function LastIndex(s: string, c: char): (i: int)
    ensures -1 <= i < |s|
    ensures i == -1 <==> c !in s
    ensures i >= 0 ==> s[i] == c && c !in s[i + 1..]
  {
    LastIndexBefore(s, c, |s|)
  }

  /** The last position below `n` that holds `c`, or -1. */
  function LastIndexBefore(s: string, c: char, n: nat): (i: int)
    requires n <= |s|
    ensures -1 <= i < n
    ensures i == -1 <==> forall j :: 0 <= j < n ==> s[j] != c
    ensures i >= 0 ==> s[i] == c && forall j :: i < j < n ==> s[j] != c
  {
    if n == 0 then -1
    else if s[n - 1] == c then n - 1
    else LastIndexBefore(s, c, n - 1)
  }

  /** True when `s` starts with `p` (strings.HasPrefix). */
  predicate HasPrefix(s: string, p: string) {
    |p| <= |s| && s[..|p|] == p
  }

  /** strings.Contains(s, sub): `sub` occurs somewhere in `s`. */
  predicate Contains(s: string, sub: string)
    decreases |s|
  {
    HasPrefix(s, sub) || (s != [] && Contains(s[1..], sub))
  }

  /**
   * strings.Replace(s, pat, by, -1) for a non-empty `pat`: every
   * non-overlapping occurrence of `pat`, scanning from the left, becomes `with`.
   */
  function ReplaceAll(s: string, pat: string, with: string): (r: string)
    requires pat != []
    ensures !Contains(s, pat) ==> r == s
    decreases |s|
  {
    if |s| < |pat| then s
    else if s[..|pat|] == pat then with + ReplaceAll(s[|pat|..], pat, with)
    else [s[0]] + ReplaceAll(s[1..], pat, with)
  }

  /** strings.Join(parts, sep). */
  function Join(parts: seq<string>, sep: string): string {
    if |parts| == 0 then ""
    else if |parts| == 1 then parts[0]
    else parts[0] + sep + Join(parts[1..], sep)
  }

  /**
   * strings.Split(s, string(c)): the pieces of `s` between occurrences of
   * `c`; there is always at least one piece, and no piece contains `c`.
   */
  function Split(s: string, c: char): (parts: seq<string>)
    ensures |parts| == Count(s, c) + 1
    ensures forall i :: 0 <= i < |parts| ==> c !in parts[i]
  {
    if s == [] then [""]
    else
      var rest := Split(s[1..], c);
      if s[0] == c then [""] + rest
      else [[s[0]] + rest[0]] + rest[1..]
  }

  /** Deleting every occurrence of `pat` shortens the text exactly when `pat` occurs in it. */
  lemma {:induction false} DeleteAllShortens(s: string, pat: string)
    requires pat != []
    ensures |ReplaceAll(s, pat, "")| <= |s|
    ensures |ReplaceAll(s, pat, "")| < |s| <==> Contains(s, pat)
    decreases |s|
  {
    if |s| < |pat| {
      assert !HasPrefix(s, pat);
      if s != [] { NoRoomNoMatch(s[1..], pat); }
    } else if s[..|pat|] == pat {
      DeleteAllShortens(s[|pat|..], pat);
    } else {
      DeleteAllShortens(s[1..], pat);
    }
  }

  /** A text shorter than `pat` does not contain it. */
  lemma {:induction false} NoRoomNoMatch(s: string, pat: string)
    requires |s| < |pat|
    ensures !Contains(s, pat)
    decreases |s|
  {
    if s != [] { NoRoomNoMatch(s[1..], pat); }
  }

  /** Splitting and joining back with the same separator gives the text back. */
  lemma {:induction false} JoinSplit(s: string, c: char)
    ensures Join(Split(s, c), [c]) == s
  {
    if s != [] {
      var rest := Split(s[1..], c);
      JoinSplit(s[1..], c);
      if s[0] == c {
        var parts := [""] + rest;
        assert Split(s, c) == parts;
        assert parts[0] == "" && parts[1..] == rest;
        assert Join(parts, [c]) == [c] + s[1..];
      } else {
        assert Split(s, c) == [[s[0]] + rest[0]] + rest[1..];
        JoinWidenFirst([s[0]], rest, [c]);
      }
      assert s == [s[0]] + s[1..];
    }
  }

  /** Widening the first piece by `x` on the left widens the joined text by `x`. */
  lemma JoinWidenFirst(x: string, parts: seq<string>, sep: string)
    requires |parts| >= 1
    ensures Join([x + parts[0]] + parts[1..], sep) == x + Join(parts, sep)
  {
    var wide := [x + parts[0]] + parts[1..];
    assert wide[0] == x + parts[0] && wide[1..] == parts[1..];
    if |parts| > 1 {
      assert (x + parts[0]) + sep + Join(parts[1..], sep) == x + (parts[0] + sep + Join(parts[1..], sep));
    }
  }

  /** Prepending text free of `c` only lengthens the first piece of a split. */
  lemma {:induction false} SplitPrefixFree(a: string, t: string, c: char)
    requires c !in a
    ensures Split(a + t, c) == [a + Split(t, c)[0]] + Split(t, c)[1..]
  {
    if a != [] {
      var first := Split(t, c)[0];
      assert (a + t)[0] == a[0] && (a + t)[1..] == a[1..] + t;
      SplitPrefixFree(a[1..], t, c);
      var rest := Split(a[1..] + t, c);
      assert a[0] != c;
      assert Split(a + t, c) == [[a[0]] + rest[0]] + rest[1..];
      assert [a[0]] + rest[0] == a + first;
    } else {
      assert a + t == t;
      assert a + Split(t, c)[0] == Split(t, c)[0];
      assert Split(t, c) == [Split(t, c)[0]] + Split(t, c)[1..];
    }
  }

  /** Joining pieces free of `c` and splitting at `c` gives the pieces back. */
  lemma {:induction false} SplitJoin(parts: seq<string>, c: char)
    requires |parts| >= 1
    requires forall i :: 0 <= i < |parts| ==> c !in parts[i]
    ensures Split(Join(parts, [c]), c) == parts
  {
    if |parts| == 1 {
      SplitPrefixFree(parts[0], "", c);
      assert parts[0] + "" == parts[0];
    } else {
      var tail := Join(parts[1..], [c]);
      SplitJoin(parts[1..], c);
      assert Join(parts, [c]) == parts[0] + ([c] + tail);
      SplitPrefixFree(parts[0], [c] + tail, c);
      assert ([c] + tail)[1..] == tail;
      assert Split([c] + tail, c) == [""] + parts[1..];
      assert parts[0] + "" == parts[0];
    }
  }

  /** A join of at least two pieces splits into the join of a prefix, the separator, and the join of the rest. */
  lemma {:induction false} JoinAt(parts: seq<string>, sep: string, k: nat)
    requires 0 < k < |parts|
    ensures Join(parts, sep) == Join(parts[..k], sep) + sep + Join(parts[k..], sep)
  {
    if k > 1 {
      JoinAt(parts[1..], sep, k - 1);
      assert parts[1..][..k - 1] == parts[..k][1..];
      assert parts[1..][k - 1..] == parts[k..];
    }
  }

  /** Counting is additive over concatenation. */
  lemma {:induction false} CountAppend(a: string, b: string, c: char)
    ensures Count(a + b, c) == Count(a, c) + Count(b, c)
  {
    if a != [] {
      assert (a + b)[1..] == a[1..] + b;
      CountAppend(a[1..], b, c);
    } else {
      assert a + b == b;
    }
  }

  /** In `x + [c] + y` with no `c` in `y`, the last `c` is the one after `x`. */
  lemma LastIndexOfCut(x: string, y: string, c: char)
    requires c !in y
    ensures LastIndex(x + [c] + y, c) == |x|
  {
    var s := x + [c] + y;
    assert s[|x|] == c;
    assert s[|x| + 1..] == y;
  }
}
