/** Loop resolution. The interpreter keeps no table of matching brackets: a `[` on a zero cell
    or a `]` on a nonzero cell starts a scan that counts brackets until the count is back to
    zero. These lemmas say where such a scan ends and how many iterations it takes. */
module Loops {
  import opened Semantics

  /** What a character adds to the bracket count. */
  function Delta(c: char): int {
    if c == '[' then 1 else if c == ']' then -1 else 0
  }

  /** The number of `[` minus the number of `]` in `code[lo..hi]`. */
  function Balance(code: string, lo: int, hi: int): int
    requires 0 <= lo <= hi <= |code|
    decreases hi - lo
  {
    if lo == hi then 0 else Balance(code, lo, hi - 1) + Delta(code[hi - 1])
  }

  lemma {:induction false} BalanceSplit(code: string, lo: int, mid: int, hi: int)
    requires 0 <= lo <= mid <= hi <= |code|
    ensures Balance(code, lo, hi) == Balance(code, lo, mid) + Balance(code, mid, hi)
    decreases hi - mid
  {
    if mid < hi {
      BalanceSplit(code, lo, mid, hi - 1);
    }
  }

  /** The `]` at `j` closes the `[` at `i`: the brackets between them are balanced, and no
      earlier `]` brings the count back to zero. */
  predicate IsMatch(code: string, i: int, j: int) {
    && 0 <= i < j < |code|
    && code[i] == '[' && code[j] == ']'
    && Balance(code, i, j + 1) == 0
    && forall k :: i < k <= j ==> Balance(code, i, k) > 0
  }

  /** Seen from its `]`, the matching `[` is the first point on the way back where the count
      returns to zero. */
  lemma MatchFromClose(code: string, i: int, j: int)
    requires IsMatch(code, i, j)
    ensures Balance(code, i, j) == 1
    ensures forall k :: i < k <= j ==> Balance(code, k, j) <= 0
  {
    BalanceSplit(code, i, j, j + 1);
    forall k | i < k <= j ensures Balance(code, k, j) <= 0 {
      BalanceSplit(code, i, k, j);
    }
  }

  /** A forward scan entered at depth `d` stops, with depth 0, on the first position `j`
      where the brackets seen bring the count to 0, having touched nothing but the depth and
      the code pointer. */
  lemma {:induction false} ForwardScan(s: Session, j: int)
    requires s.Valid() && s.depth > 0 && 0 <= s.ip <= j < |s.code|
    requires s.depth + Balance(s.code, s.ip, j + 1) == 0
    requires forall k :: s.ip < k <= j ==> s.depth + Balance(s.code, s.ip, k) > 0
    ensures Steps(s, j - s.ip + 1) == s.(ip := j, depth := 0)
    decreases j - s.ip
  {
    var i := s.ip;
    StepScan(s);
    var t := Step(s);
    assert Balance(s.code, i, i + 1) == Delta(s.code[i]);
    if i < j {
      assert t == s.(depth := s.depth + Delta(s.code[i]), ip := i + 1);
      BalanceSplit(s.code, i, i + 1, j + 1);
      forall k | t.ip < k <= j ensures t.depth + Balance(t.code, t.ip, k) > 0 {
        BalanceSplit(s.code, i, i + 1, k);
      }
      ForwardScan(t, j);
    }
  }

  /** A forward scan whose count stays positive to the end of the code runs off the end. */
  lemma {:induction false} ForwardScanOffEnd(s: Session)
    requires s.Valid() && s.depth > 0 && 0 <= s.ip < |s.code|
    requires forall k :: s.ip < k <= |s.code| ==> s.depth + Balance(s.code, s.ip, k) > 0
    ensures Steps(s, |s.code| - s.ip) == s.(ip := |s.code|, depth := s.depth + Balance(s.code, s.ip, |s.code|))
    decreases |s.code| - s.ip
  {
    var i := s.ip;
    StepScan(s);
    var t := Step(s);
    assert Balance(s.code, i, i + 1) == Delta(s.code[i]);
    assert t == s.(depth := s.depth + Delta(s.code[i]), ip := i + 1);
    BalanceSplit(s.code, i, i + 1, |s.code|);
    if i + 1 < |s.code| {
      forall k | t.ip < k <= |t.code| ensures t.depth + Balance(t.code, t.ip, k) > 0 {
        BalanceSplit(s.code, i, i + 1, k);
      }
      ForwardScanOffEnd(t);
    }
  }

  /** A backward scan entered at depth `d` stops, with depth 0, on the first position `i`
      below it where the brackets seen bring the count to 0 (`hi` is one past the pointer). */
  lemma {:induction false} BackwardScan(s: Session, i: int, hi: int)
    requires s.Valid() && s.depth < 0 && 0 <= i <= s.ip < |s.code| && hi == s.ip + 1
    requires s.depth + Balance(s.code, i, hi) == 0
    requires forall k :: i < k <= s.ip ==> s.depth + Balance(s.code, k, hi) < 0
    ensures Steps(s, s.ip - i + 1) == s.(ip := i, depth := 0)
    decreases s.ip - i
  {
    var j := s.ip;
    StepScan(s);
    var t := Step(s);
    assert Balance(s.code, j, j + 1) == Delta(s.code[j]);
    if i < j {
      assert t == s.(depth := s.depth + Delta(s.code[j]), ip := j - 1);
      BalanceSplit(s.code, i, j, j + 1);
      forall k | i < k <= t.ip ensures t.depth + Balance(t.code, k, j) < 0 {
        BalanceSplit(s.code, k, j, j + 1);
      }
      BackwardScan(t, i, j);
    }
  }

  /** Skipping a loop: a `[` on a zero cell leads, after `j - i + 2` iterations, to normal
      execution one past its matching `]` at `j`, with nothing else changed. The `]` is
      dispatched again in normal mode, finds the cell still zero and does nothing. */
  lemma SkipLoop(s: Session, j: int, n: nat)
    requires s.Valid() && s.depth == 0 && IsMatch(s.code, s.ip, j) && s.Cell() == 0 && n == j - s.ip + 2
    ensures Steps(s, n) == s.(ip := j + 1)
  {
    var i := s.ip;
    StepOpen(s);
    var t := s.(depth := 1, ip := s.ip + 1);
    BalanceSplit(s.code, i, i + 1, j + 1);
    forall k | t.ip < k <= j ensures t.depth + Balance(t.code, t.ip, k) > 0 {
      BalanceSplit(s.code, i, i + 1, k);
    }
    ForwardScan(t, j);
    var c := j - t.ip + 1;
    var u := t.(ip := j, depth := 0);
    StepClose(u);
    var f := u.(ip := u.ip + 1);
    var d := n - c - 1;
    assert Steps(f, d - 1) == f;
    StepsStep(u, f, d - 1, d, f);
    StepsJoin(t, c, d, c + d, u, f);
    StepsStep(s, t, c + d, n, f);
  }

  /** Repeating a loop: a `]` on a nonzero cell leads, after `j - i + 2` iterations, to normal
      execution just after its matching `[` at `i`, with nothing else changed. The `[` is
      dispatched again in normal mode, finds the cell still nonzero and does nothing. */
  lemma RepeatLoop(s: Session, i: int, n: nat)
    requires s.Valid() && s.depth == 0 && IsMatch(s.code, i, s.ip) && s.Cell() != 0 && n == s.ip - i + 2
    ensures Steps(s, n) == s.(ip := i + 1)
  {
    var j := s.ip;
    StepClose(s);
    var t := s.(depth := -1, ip := s.ip - 1);
    MatchFromClose(s.code, i, j);
    forall k | i < k <= t.ip ensures t.depth + Balance(t.code, k, j) < 0 {
    }
    BackwardScan(t, i, j);
    var c := t.ip - i + 1;
    var u := t.(ip := i, depth := 0);
    StepOpen(u);
    var f := u.(ip := u.ip + 1);
    var d := n - c - 1;
    assert Steps(f, d - 1) == f;
    StepsStep(u, f, d - 1, d, f);
    StepsJoin(t, c, d, c + d, u, f);
    StepsStep(s, t, c + d, n, f);
  }

  /** A `[` on a zero cell with no matching `]` scans off the end of the code in
      `|code| - i` iterations, leaving the depth at the number of brackets left open. */
  lemma UnmatchedOpenScan(s: Session)
    requires s.Valid() && s.depth == 0 && 0 <= s.ip < |s.code| && s.code[s.ip] == '[' && s.Cell() == 0
    requires forall k :: s.ip < k <= |s.code| ==> Balance(s.code, s.ip, k) > 0
    ensures Steps(s, |s.code| - s.ip) == s.(ip := |s.code|, depth := Balance(s.code, s.ip, |s.code|))
  {
    var i := s.ip;
    StepOpen(s);
    var t := Step(s);
    BalanceSplit(s.code, i, i + 1, |s.code|);
    if i + 1 < |s.code| {
      forall k | t.ip < k <= |t.code| ensures t.depth + Balance(t.code, t.ip, k) > 0 {
        BalanceSplit(s.code, i, i + 1, k);
      }
      ForwardScanOffEnd(t);
      StepsAdd(s, 1, |s.code| - (i + 1));
    }
  }

  /** Hence the run ends normally, with the output as it was before the `[`. */
  lemma UnmatchedOpenHalts(s: Session, fuel: nat)
    requires s.Valid() && s.depth == 0 && 0 <= s.ip < |s.code| && s.code[s.ip] == '[' && s.Cell() == 0
    requires forall k :: s.ip < k <= |s.code| ==> Balance(s.code, s.ip, k) > 0
    requires fuel >= |s.code| - s.ip
    ensures Run(s, fuel) == Outcome(Halted, s.(ip := |s.code|, depth := Balance(s.code, s.ip, |s.code|)))
  {
    var n := |s.code| - s.ip;
    var f := s.(ip := |s.code|, depth := Balance(s.code, s.ip, |s.code|));
    UnmatchedOpenScan(s);
    RunSteps(s, n, fuel);
    assert Run(f, fuel - n) == Outcome(Halted, f);
  }
}
