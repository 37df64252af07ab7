/**
 * Channel patterns (packages/protocol/src/rbac.ts): what a pattern means, and
 * the matcher that remembers only the last `*`.
 */
module Glob {
  /** The language of a pattern: `*` stands for any run of characters, anything else for itself. */
  ghost predicate Matches(p: string, v: string)
    decreases |p|
  {
    if p == "" then v == ""
    else if p[0] == '*' then exists k :: 0 <= k <= |v| && Matches(p[1..], v[k..])
    else v != "" && v[0] == p[0] && Matches(p[1..], v[1..])
  }

  ghost predicate Literal(p: string) {
    forall i :: 0 <= i < |p| ==> p[i] != '*'
  }

  /** The star at the head of `p` may swallow exactly, or strictly more than, `at` characters of `v`. */
  ghost predicate SwallowsBeyond(p: string, v: string, at: nat) {
    exists k :: at < k <= |v| && Matches(p, v[k..])
  }

  lemma StarSplits(p: string, v: string, at: nat)
    requires p != "" && p[0] == '*' && at <= |v|
    ensures Matches(p, v[at..]) <==> Matches(p[1..], v[at..]) || SwallowsBeyond(p[1..], v, at)
  {
    var tail := v[at..];
    if Matches(p, tail) {
      var k :| 0 <= k <= |tail| && Matches(p[1..], tail[k..]);
      assert tail[k..] == v[at + k..];
    }
    if SwallowsBeyond(p[1..], v, at) {
      var k :| at < k <= |v| && Matches(p[1..], v[k..]);
      assert tail[k - at..] == v[k..];
    }
    if Matches(p[1..], tail) { assert tail[0..] == tail; }
  }

  lemma StepBeyond(p: string, v: string, at: nat)
    requires at < |v|
    ensures SwallowsBeyond(p, v, at) <==> Matches(p, v[at + 1..]) || SwallowsBeyond(p, v, at + 1)
  {
  }

  lemma PrefixSplits(lit: string, v: string)
    requires 0 < |lit| <= |v|
    ensures v[1..][|lit| - 1..] == v[|lit|..]
    ensures v[..|lit|] == lit <==> v[0] == lit[0] && v[1..][..|lit| - 1] == lit[1..]
  {
    assert v[1..][..|lit| - 1] == v[1..|lit|];
    assert v[..|lit|] == [v[0]] + v[1..|lit|] && lit == [lit[0]] + lit[1..];
  }

  /** A literal prefix is matched character by character. */
  lemma {:induction false} LiteralPrefix(lit: string, rest: string, v: string)
    requires Literal(lit)
    ensures Matches(lit + rest, v) <==> |lit| <= |v| && v[..|lit|] == lit && Matches(rest, v[|lit|..])
  {
    if lit == "" {
      assert lit + rest == rest && v[0..] == v;
    } else {
      assert (lit + rest)[0] == lit[0] && (lit + rest)[1..] == lit[1..] + rest;
      if v != "" {
        LiteralPrefix(lit[1..], rest, v[1..]);
        if |lit| <= |v| { PrefixSplits(lit, v); }
      }
    }
  }

  /** Only stars match the empty string. */
  lemma {:induction false} EmptyValue(p: string)
    ensures Matches(p, "") <==> forall i :: 0 <= i < |p| ==> p[i] == '*'
  {
    if p != "" {
      EmptyValue(p[1..]);
      assert ""[0..] == "";
      assert p == [p[0]] + p[1..];
    }
  }

  lemma StarSwallowsMore(p: string, v: string, from: nat, to: nat)
    requires p != "" && p[0] == '*' && from <= to <= |v| && Matches(p, v[to..])
    ensures Matches(p, v[from..])
  {
    var k :| 0 <= k <= |v| - to && Matches(p[1..], v[to..][k..]);
    assert v[from..][to - from + k..] == v[to..][k..];
  }

  /**
   * Once the matcher meets a second star after the literal `lit`, letting the first one
   * swallow more can never help: the second star already covers it.
   */
  lemma LaterStarCovers(lit: string, rest: string, v: string, mark: nat)
    requires Literal(lit) && rest != "" && rest[0] == '*'
    requires mark + |lit| <= |v| && SwallowsBeyond(lit + rest, v, mark)
    ensures Matches(rest, v[mark + |lit|..])
  {
    var k :| mark < k <= |v| && Matches(lit + rest, v[k..]);
    LiteralPrefix(lit, rest, v[k..]);
    assert v[k..][|lit|..] == v[k + |lit|..];
    StarSwallowsMore(rest, v, mark + |lit|, k + |lit|);
  }

  /** The indices are in range, and since the last star the pattern has been followed literally. */
  ghost predicate Placed(p: string, v: string, pi: nat, vi: nat, star: int, mark: nat) {
    && pi <= |p| && mark <= vi <= |v| && -1 <= star < pi
    && (star >= 0 ==>
          && p[star] == '*' && pi - star - 1 == vi - mark
          && Literal(p[star + 1..pi]) && p[star + 1..pi] == v[mark..vi])
  }

  /** What is left to decide from there. */
  ghost predicate Open(p: string, v: string, pi: nat, vi: nat, star: int, mark: nat)
    requires Placed(p, v, pi, vi, star, mark)
  {
    Matches(p[pi..], v[vi..]) || (star >= 0 && SwallowsBeyond(p[star + 1..], v, mark))
  }

  lemma SameChar(p: string, v: string, pi: nat, vi: nat, star: int, mark: nat)
    requires Placed(p, v, pi, vi, star, mark) && pi < |p| && vi < |v| && p[pi] == v[vi] && p[pi] != '*'
    ensures Placed(p, v, pi + 1, vi + 1, star, mark)
    ensures Open(p, v, pi, vi, star, mark) <==> Open(p, v, pi + 1, vi + 1, star, mark)
  {
    assert p[pi..][1..] == p[pi + 1..] && v[vi..][1..] == v[vi + 1..];
    if star >= 0 {
      assert p[star + 1..pi + 1] == p[star + 1..pi] + [p[pi]] && v[mark..vi + 1] == v[mark..vi] + [v[vi]];
    }
  }

  lemma NewStar(p: string, v: string, pi: nat, vi: nat, star: int, mark: nat)
    requires Placed(p, v, pi, vi, star, mark) && pi < |p| && p[pi] == '*'
    ensures Placed(p, v, pi + 1, vi, pi, vi)
    ensures Open(p, v, pi, vi, star, mark) <==> Open(p, v, pi + 1, vi, pi, vi)
  {
    StarSplits(p[pi..], v, vi);
    assert p[pi..][1..] == p[pi + 1..];
    if star >= 0 && SwallowsBeyond(p[star + 1..], v, mark) {
      assert p[star + 1..] == p[star + 1..pi] + p[pi..];
      LaterStarCovers(p[star + 1..pi], p[pi..], v, mark);
    }
  }

  lemma Backtrack(p: string, v: string, pi: nat, vi: nat, star: int, mark: nat)
    requires Placed(p, v, pi, vi, star, mark) && star >= 0 && vi < |v|
    requires pi < |p| ==> p[pi] != v[vi] && p[pi] != '*'
    ensures Placed(p, v, star + 1, mark + 1, star, mark + 1)
    ensures Open(p, v, pi, vi, star, mark) <==> Open(p, v, star + 1, mark + 1, star, mark + 1)
  {
    assert !Matches(p[pi..], v[vi..]);
    StepBeyond(p[star + 1..], v, mark);
  }

  lemma Stuck(p: string, v: string, pi: nat, vi: nat, mark: nat)
    requires Placed(p, v, pi, vi, -1, mark) && vi < |v|
    requires pi < |p| ==> p[pi] != v[vi] && p[pi] != '*'
    ensures !Open(p, v, pi, vi, -1, mark)
  {
  }

  lemma ValueExhausted(p: string, v: string, pi: nat, star: int, mark: nat)
    requires Placed(p, v, pi, |v|, star, mark)
    ensures Open(p, v, pi, |v|, star, mark) <==> forall i :: pi <= i < |p| ==> p[i] == '*'
  {
    assert v[|v|..] == "";
    EmptyValue(p[pi..]);
    assert (forall i :: 0 <= i < |p[pi..]| ==> p[pi..][i] == '*') <==> forall i :: pi <= i < |p| ==> p[i] == '*' by {
      assert forall i :: pi <= i < |p| ==> p[i] == p[pi..][i - pi];
    }
    if star >= 0 && SwallowsBeyond(p[star + 1..], v, mark) {
      var k :| mark < k <= |v| && Matches(p[star + 1..], v[k..]);
      assert p[star + 1..] == p[star + 1..pi] + p[pi..];
      LiteralPrefix(p[star + 1..pi], p[pi..], v[k..]);
      assert false;
    }
  }

  /** Turns the main loop can have taken before the last star's mark reached `mark`: mark * (m + 1). */
  ghost function Turns(mark: nat, m: nat): nat {
    if mark == 0 then 0 else Turns(mark - 1, m) + m + 1
  }

  lemma {:induction false} TurnsMonotone(mark: nat, n: nat, m: nat)
    requires mark <= n
    ensures Turns(mark, m) <= Turns(n, m)
  {
    if mark < n { TurnsMonotone(mark, n - 1, m); }
  }

  /** So a match costs at most (length of value + 1) * (length of pattern + 1) turns. */
  lemma {:induction false} TurnsAreProduct(n: nat, m: nat)
    ensures Turns(n, m) == n * (m + 1)
  {
    if n > 0 { TurnsAreProduct(n - 1, m); }
  }

  lemma StepBound(steps: nat, mark: nat, n: nat, m: nat, pi: nat)
    requires steps <= Turns(mark, m) + pi && mark <= n && pi <= m
    ensures steps + 1 <= Turns(n + 1, m)
  {
    TurnsMonotone(mark, n, m);
  }

  /** One turn of the main loop; not `going` is the `return false`. */
  method OneTurn(p: string, v: string, pi0: nat, vi0: nat, star0: int, mark0: nat)
    returns (going: bool, pi: nat, vi: nat, star: int, mark: nat)
    requires Placed(p, v, pi0, vi0, star0, mark0) && vi0 < |v|
    ensures !going ==> !Open(p, v, pi0, vi0, star0, mark0)
    ensures going ==> Placed(p, v, pi, vi, star, mark)
    ensures going ==> (Open(p, v, pi0, vi0, star0, mark0) <==> Open(p, v, pi, vi, star, mark))
    ensures going ==> star > star0 || (star == star0 && (mark > mark0 || (mark == mark0 && pi > pi0)))
    ensures going ==> Turns(mark0, |p|) + pi0 < Turns(mark, |p|) + pi
  {
    if pi0 < |p| && (p[pi0] == v[vi0] || p[pi0] == '*') {
      if p[pi0] == '*' {
        NewStar(p, v, pi0, vi0, star0, mark0);
        TurnsMonotone(mark0, vi0, |p|);
        return true, pi0 + 1, vi0, pi0, vi0;
      }
      SameChar(p, v, pi0, vi0, star0, mark0);
      return true, pi0 + 1, vi0 + 1, star0, mark0;
    }
    if star0 >= 0 {
      Backtrack(p, v, pi0, vi0, star0, mark0);
      assert Turns(mark0 + 1, |p|) == Turns(mark0, |p|) + |p| + 1;
      return true, star0 + 1, mark0 + 1, star0, mark0 + 1;
    }
    Stuck(p, v, pi0, vi0, mark0);
    return false, pi0, vi0, star0, mark0;
  }

  /** The matcher itself, on lower-cased strings; `steps` counts the turns of its main loop. */
  method Match(p: string, v: string) returns (matched: bool, ghost steps: nat)
    ensures matched <==> Matches(p, v)
    ensures steps <= Turns(|v| + 1, |p|)
  {
    var pi: nat, vi: nat := 0, 0;
    var star: int, mark: nat := -1, 0;
    steps := 0;
    assert p[0..] == p && v[0..] == v;
    while vi < |v|
      invariant Placed(p, v, pi, vi, star, mark)
      invariant Matches(p, v) <==> Open(p, v, pi, vi, star, mark)
      invariant steps <= Turns(mark, |p|) + pi
      decreases |p| - star, |v| - mark, |p| - pi
    {
      StepBound(steps, mark, |v|, |p|, pi);
      steps := steps + 1;
      var going;
      going, pi, vi, star, mark := OneTurn(p, v, pi, vi, star, mark);
      if !going { return false, steps; }
    }
    StepBound(steps, mark, |v|, |p|, pi);
    ValueExhausted(p, v, pi, star, mark);
    matched := OnlyStars(p, pi);
  }

  /** The loop that skips trailing stars. */
  method OnlyStars(p: string, from: nat) returns (only: bool)
    requires from <= |p|
    ensures only <==> forall i :: from <= i < |p| ==> p[i] == '*'
  {
    var pi := from;
    while pi < |p| && p[pi] == '*'
      invariant from <= pi <= |p|
      invariant forall i :: from <= i < pi ==> p[i] == '*'
    {
      pi := pi + 1;
    }
    only := pi == |p|;
  }
}
