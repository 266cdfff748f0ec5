/**
 * String helpers over `seq<char>`. `StartsWith`, `EndsWith`, `Contains` and
 * `Join` are `str` operations the program calls; its `split('=', 1)` is
 * `Find` (the first `=`) and two slices. `RFind` and `Count` are the model's
 * own: the last `.` at which the email pattern's backtracking settles, and
 * the counts of `@` in an email and of line feeds in the report.
 */
module Strings {

  /** s.startswith(prefix) */
  predicate StartsWith(s: string, prefix: string)
  {
    |prefix| <= |s| && s[..|prefix|] == prefix
  }

  /** s.endswith(suffix) */
  predicate EndsWith(s: string, suffix: string)
  {
    |suffix| <= |s| && s[|s| - |suffix|..] == suffix
  }

  /** `sub` occurs in `s` starting at index `i`. */
  predicate OccursAt(s: string, sub: string, i: int)
  {
    0 <= i && i + |sub| <= |s| && s[i..i + |sub|] == sub
  }

  /** sub in s */
  predicate Contains(s: string, sub: string)
  {
    exists i | 0 <= i <= |s| - |sub| :: OccursAt(s, sub, i)
  }

  /** Two-character containment, character by character. */
  lemma NotContainsPair(s: string, a: char, b: char)
    requires forall i :: 0 <= i < |s| - 1 ==> s[i] != a || s[i + 1] != b
    ensures !Contains(s, [a, b])
  {
    forall i | 0 <= i <= |s| - 2 ensures !OccursAt(s, [a, b], i) {
      assert s[i..i + 2][0] == s[i] && s[i..i + 2][1] == s[i + 1];
    }
  }

  /** The first index at or after `start` that holds `c`, or -1. */
  function Find(s: string, c: char, start: nat): (r: int)
    ensures r == -1 || start <= r < |s|
    ensures r >= 0 ==> s[r] == c
    ensures forall i :: start <= i < |s| && (r == -1 || i < r) ==> s[i] != c
    decreases |s| - start
  {
    if start >= |s| then -1
    else if s[start] == c then start
    else Find(s, c, start + 1)
  }

  /** The last index that holds `c`, or -1. */
  function RFind(s: string, c: char): (r: int)
    ensures -1 <= r < |s|
    ensures r >= 0 ==> s[r] == c
    ensures forall i :: r < i < |s| ==> s[i] != c
  {
    if s == [] then -1
    else if s[|s| - 1] == c then |s| - 1
    else RFind(s[..|s| - 1], c)
  }

  /** How many times `c` occurs in `s`. */
  function Count(s: string, c: char): nat
  {
    if s == [] then 0
    else Count(s[..|s| - 1], c) + (if s[|s| - 1] == c then 1 else 0)
  }

  lemma {:induction false} CountConcat(a: string, b: string, c: char)
    ensures Count(a + b, c) == Count(a, c) + Count(b, c)
    decreases |b|
  {
    if b != [] {
      assert (a + b)[..|a + b| - 1] == a + b[..|b| - 1];
      CountConcat(a, b[..|b| - 1], c);
    } else {
      assert a + b == a;
    }
  }

  lemma {:induction false} CountAbsent(s: string, c: char)
    requires forall i :: 0 <= i < |s| ==> s[i] != c
    ensures Count(s, c) == 0
  {
    if s != [] {
      CountAbsent(s[..|s| - 1], c);
    }
  }

  /** sep.join(items) */
  function Join(sep: string, items: seq<string>): (r: string)
  {
    if |items| == 0 then ""
    else if |items| == 1 then items[0]
    else Join(sep, items[..|items| - 1]) + sep + items[|items| - 1]
  }

  /** Joining from the front: the first item, the separator, then the rest joined. */
  lemma {:induction false} JoinCons(sep: string, x: string, rest: seq<string>)
    requires rest != []
    ensures Join(sep, [x] + rest) == x + sep + Join(sep, rest)
    decreases |rest|
  {
    var items := [x] + rest;
    if |rest| == 1 {
      assert items[..|items| - 1] == [x];
    } else {
      assert items[..|items| - 1] == [x] + rest[..|rest| - 1];
      JoinCons(sep, x, rest[..|rest| - 1]);
    }
  }
}
