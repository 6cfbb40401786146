/** The continuous health tests of health.go: the streaming repetition count and adaptive proportion
    tests (SP 800-90B sections 4.4.1 and 4.4.2) against a specification over the whole trace of
    samples since the last reset. */
module HealthTests {
  import opened Common
  import Binomial

  datatype Cutoffs = Cutoffs(rct: int, window: nat, apt: int)

  datatype Verdict =
    | Pass
    | Rct(count: nat, cutoff: int, sample: word)
    | Apt(count: nat, cutoff: int, sample: word)

  // ---- specification over traces ----

  /** The number of equal samples the trace ends with. */
  function TrailingRun(trace: seq<word>): nat {
    var n := |trace|;
    if n <= 1 then n
    else if trace[n - 1] == trace[n - 2] then TrailingRun(trace[..n - 1]) + 1
    else 1
  }

  function CountOf(s: seq<word>, x: word): nat {
    if s == [] then 0 else CountOf(s[..|s| - 1], x) + if s[|s| - 1] == x then 1 else 0
  }

  /** How often the first sample of a window occurs again in it. */
  function Repeats(window: seq<word>): nat
    requires window != []
  {
    CountOf(window[1..], window[0])
  }

  /** The run length that fails: the first sample of a trace is never compared with anything. */
  function RunLimit(c: Cutoffs): nat {
    Max(2, c.rct)
  }

  /** The verdict on a nonempty trace that passed up to its last sample. */
  function Judge(c: Cutoffs, t: seq<word>): Verdict
    requires t != [] && c.window >= 1
  {
    if TrailingRun(t) >= RunLimit(c) then Rct(TrailingRun(t), c.rct, t[|t| - 1])
    else if WindowEnds(c, t) && LastRepeats(c, t) > c.apt then Apt(LastRepeats(c, t), c.apt, t[|t| - 1])
    else Pass
  }

  /** The trace ends with a complete window; windows follow one another from the start. */
  predicate WindowEnds(c: Cutoffs, t: seq<word>)
    requires t != [] && c.window >= 1
    ensures WindowEnds(c, t) ==> c.window <= |t|
  {
    var full := |t| % c.window == 0;
    assert full ==> |t| == (|t| / c.window) * c.window;
    assert |t| / c.window >= 1 ==> (|t| / c.window) * c.window >= c.window;
    full
  }

  /** The repeats in the complete window that the trace ends with. */
  function LastRepeats(c: Cutoffs, t: seq<word>): nat
    requires t != [] && c.window >= 1 && WindowEnds(c, t)
  {
    Repeats(t[|t| - c.window..])
  }

  /** The tests start over after a failure. */
  function After(c: Cutoffs, t: seq<word>): seq<word>
    requires t != [] && c.window >= 1
  {
    if Judge(c, t).Pass? then t else []
  }

  // ---- the streaming tests ----

  lemma ModStep(n: nat, w: nat)
    requires w >= 1
    ensures (n + 1) % w == if n % w + 1 == w then 0 else n % w + 1
  {
    var q, r := n / w, n % w;
    if r + 1 == w {
      assert n + 1 == (q + 1) * w;
      ModIs(n + 1, w, q + 1, 0);
    } else {
      ModIs(n + 1, w, q, r + 1);
    }
  }

  /** 1 + ceil(x), for the quotient x = -log2(alpha)/minEntropy. */
  function RctCutoff(x: real): (c: int)
    ensures x > 0.0 ==> c >= 2
    ensures (c - 1) as real >= x > (c - 2) as real
  {
    1 - (-x).Floor
  }

  class Health {
    const cutoffs: Cutoffs
    var last: word
    var rctCount: nat
    var aptRef: word
    var aptCount: nat
    var aptPos: nat
    var failures: nat
    ghost var trace: seq<word>

    /** The repetition counter is what the trace determines. */
    ghost predicate RunValid(t: seq<word>)
      reads this
    {
      && rctCount == TrailingRun(t)
      && (t != [] ==> last == t[|t| - 1])
    }

    /** The window counter is what the incomplete window at the end of the trace determines. */
    ghost predicate WindowValid(t: seq<word>)
      reads this
    {
      && cutoffs.window >= 1
      && aptPos == |t| % cutoffs.window && aptPos <= |t|
      && (aptPos > 0 ==> aptRef == t[|t| - aptPos] && aptCount == CountOf(t[|t| - aptPos + 1..], aptRef))
    }

    ghost predicate Valid()
      reads this
    {
      RunValid(trace) && WindowValid(trace)
    }

    constructor (minEntropyQuotient: real, window: nat, p: real, alpha: real)
      requires minEntropyQuotient > 0.0 && window >= 1 && 0.0 < p <= 1.0 && 0.0 < alpha < 1.0
      ensures Valid() && trace == [] && failures == 0
      ensures cutoffs.window == window && cutoffs.rct == RctCutoff(minEntropyQuotient) >= 2
      ensures cutoffs.apt >= 0 && Binomial.IsQuantile(window - 1, p, alpha, cutoffs.apt)
    {
      var apt := Binomial.AptCutoff(window, p, alpha);
      cutoffs := Cutoffs(RctCutoff(minEntropyQuotient), window, apt);
      last, rctCount, aptRef, aptCount, aptPos, failures := 0, 0, 0, 0, 0, 0;
      trace := [];
    }

    /** Tests with given cutoffs. */
    constructor Of(c: Cutoffs)
      requires c.window >= 1
      ensures Valid() && trace == [] && failures == 0 && cutoffs == c
    {
      cutoffs := c;
      last, rctCount, aptRef, aptCount, aptPos, failures := 0, 0, 0, 0, 0, 0;
      trace := [];
    }

    /** Repetition count test: whether the trailing run has reached the limit. */
    method Repetition(s: word) returns (failed: bool)
      requires RunValid(trace)
      modifies `last, `rctCount
      ensures RunValid(trace + [s])
      ensures failed <==> TrailingRun(trace + [s]) >= RunLimit(cutoffs)
    {
      ghost var t := trace + [s];
      assert t[..|t| - 1] == trace;
      if rctCount == 0 {
        last := s;
        rctCount := 1;
        failed := false;
      } else if s == last {
        rctCount := rctCount + 1;
        failed := rctCount >= cutoffs.rct;
      } else {
        last := s;
        rctCount := 1;
        failed := false;
      }
    }

    /** Adaptive proportion test: whether a window is complete and its first sample recurred too often. */
    method Proportion(s: word) returns (failed: bool)
      requires WindowValid(trace)
      modifies `aptRef, `aptCount, `aptPos
      ensures WindowValid(trace + [s])
      ensures var t := trace + [s];
        && (failed <==> WindowEnds(cutoffs, t) && LastRepeats(cutoffs, t) > cutoffs.apt)
        && (failed ==> aptCount == LastRepeats(cutoffs, t))
    {
      ghost var t := trace + [s];
      ghost var start := |trace| - aptPos;
      if aptPos == 0 {
        aptRef := s;
        aptCount := 0;
      } else {
        assert t[start + 1..][..aptPos - 1] == trace[start + 1..];
        if s == aptRef {
          aptCount := aptCount + 1;
        }
      }
      ModStep(|trace|, cutoffs.window);
      aptPos := aptPos + 1;
      assert t[start..][1..] == t[start + 1..];
      failed := false;
      if aptPos == cutoffs.window {
        aptPos := 0;
        failed := aptCount > cutoffs.apt;
      }
    }

    /** Feeds one sample through both tests: the verdict is the specification's on the trace extended
        by it, and a failure is counted and empties the trace. */
    method Check(s: word) returns (v: Verdict)
      requires Valid()
      modifies this
      ensures Valid()
      ensures v == Judge(cutoffs, old(trace) + [s])
      ensures trace == After(cutoffs, old(trace) + [s])
      ensures failures == old(failures) + if v.Pass? then 0 else 1
    {
      ghost var t := trace + [s];
      var repeated := Repetition(s);
      if repeated {
        failures := failures + 1;
        v := Rct(rctCount, cutoffs.rct, s);
        assert v == Judge(cutoffs, t);
        Reset();
        return;
      }
      var proportional := Proportion(s);
      if proportional {
        failures := failures + 1;
        v := Apt(aptCount, cutoffs.apt, s);
        assert v == Judge(cutoffs, t);
        Reset();
        return;
      }
      trace := t;
      v := Pass;
    }

    method Reset()
      requires cutoffs.window >= 1
      modifies this
      ensures Valid() && trace == [] && failures == old(failures)
    {
      rctCount := 0;
      aptPos := 0;
      aptCount := 0;
      trace := [];
    }
  }

  // ---- which sequences of samples pass ----

  /** Every sample of the sequence passes, in a run that starts right after a reset. */
  predicate Passes(c: Cutoffs, t: seq<word>)
    requires c.window >= 1
  {
    t == [] || (Passes(c, t[..|t| - 1]) && Judge(c, t).Pass?)
  }

  /** The n samples before position end are all equal. */
  ghost predicate ConstantBefore(t: seq<word>, end: nat, n: nat) {
    n <= end <= |t| && forall j :: end - n <= j < end ==> t[j] == t[end - 1]
  }

  lemma {:induction false} RunIsConstant(t: seq<word>, n: nat)
    requires n >= 1
    ensures TrailingRun(t) >= n <==> ConstantBefore(t, |t|, n)
  {
    if |t| >= 2 && n >= 2 {
      var k := |t| - 1;
      RunIsConstant(t[..k], n - 1);
      if t[k] == t[k - 1] {
        if ConstantBefore(t[..k], k, n - 1) {
          forall j | |t| - n <= j < |t| ensures t[j] == t[k] {
            if j < k { assert t[..k][j] == t[..k][k - 1]; }
          }
        }
        if ConstantBefore(t, |t|, n) {
          forall j | k - (n - 1) <= j < k ensures t[..k][j] == t[..k][k - 1] {}
        }
      }
    }
  }

  /** Neither a run of equal samples of the limiting length ends at position end, nor a complete
      window with too many repeats of its first sample. */
  ghost predicate CleanAt(c: Cutoffs, t: seq<word>, end: nat)
    requires c.window >= 1 && 1 <= end <= |t|
  {
    && !ConstantBefore(t, end, RunLimit(c))
    && (WindowEnds(c, t[..end]) ==> Repeats(t[end - c.window..end]) <= c.apt)
  }

  lemma CleanAtPrefix(c: Cutoffs, t: seq<word>, k: nat, end: nat)
    requires c.window >= 1 && 1 <= end <= k <= |t|
    ensures CleanAt(c, t[..k], end) <==> CleanAt(c, t, end)
  {
    assert t[..k][..end] == t[..end];
    if WindowEnds(c, t[..end]) { assert t[..k][end - c.window..end] == t[end - c.window..end]; }
    assert forall j :: 0 <= j < end ==> t[..k][j] == t[j];
  }

  lemma CleanAtLast(c: Cutoffs, t: seq<word>)
    requires c.window >= 1 && t != []
    ensures CleanAt(c, t, |t|) <==> Judge(c, t).Pass?
  {
    RunIsConstant(t, RunLimit(c));
    assert t[..|t|] == t;
    if WindowEnds(c, t) { assert t[|t| - c.window..] == t[|t| - c.window..|t|]; }
  }

  /** A sequence passes exactly when it is clean everywhere. */
  lemma {:induction false} PassesExactly(c: Cutoffs, t: seq<word>)
    requires c.window >= 1
    ensures Passes(c, t) <==> forall end :: 1 <= end <= |t| ==> CleanAt(c, t, end)
  {
    if t != [] {
      var k := |t| - 1;
      PassesExactly(c, t[..k]);
      forall end | 1 <= end <= k ensures CleanAt(c, t[..k], end) <==> CleanAt(c, t, end) {
        CleanAtPrefix(c, t, k, end);
      }
      CleanAtLast(c, t);
    }
  }

  // ---- what a verdict says ----

  /** Positions of the sequence that hold x. */
  ghost function Where(s: seq<word>, x: word): set<nat> {
    set j: nat | j < |s| && s[j] == x
  }

  lemma {:induction false} CountOfIsSize(s: seq<word>, x: word)
    ensures CountOf(s, x) == |Where(s, x)|
  {
    if s == [] {
      assert Where(s, x) == {};
    } else {
      var k := |s| - 1;
      CountOfIsSize(s[..k], x);
      assert forall j: nat :: j < k ==> s[..k][j] == s[j];
      if s[k] == x {
        assert Where(s, x) == Where(s[..k], x) + {k};
      } else {
        assert Where(s, x) == Where(s[..k], x);
      }
    }
  }

  /** The places after the first of the last complete window where its first sample comes again. */
  ghost function Recurrences(c: Cutoffs, t: seq<word>): set<nat>
    requires 1 <= c.window <= |t|
  {
    Where(t[|t| - c.window..][1..], t[|t| - c.window])
  }

  /** A repetition failure means that the last samples, as many as the limit, are equal, and reports
      that number when it is the first; a proportion failure means there is none, a window is complete,
      and its first sample recurs more often than the cutoff, and reports how often. */
  lemma VerdictMeans(c: Cutoffs, t: seq<word>)
    requires t != [] && c.window >= 1
    ensures var v, constant := Judge(c, t), ConstantBefore(t, |t|, RunLimit(c));
      && (v.Rct? <==> constant)
      && (v.Apt? <==> !constant && |t| % c.window == 0 && c.window <= |t| && |Recurrences(c, t)| > c.apt)
      && (v.Rct? ==> v.count >= RunLimit(c) && v.cutoff == c.rct && v.sample == t[|t| - 1])
      && (v.Rct? && Passes(c, t[..|t| - 1]) ==> v.count == RunLimit(c))
      && (v.Apt? ==> v.count == |Recurrences(c, t)| && v.cutoff == c.apt && v.sample == t[|t| - 1])
  {
    RunIsConstant(t, RunLimit(c));
    if WindowEnds(c, t) {
      var window := t[|t| - c.window..];
      CountOfIsSize(window[1..], window[0]);
    }
    var front := t[..|t| - 1];
    if front != [] && Passes(c, front) { assert TrailingRun(front) < RunLimit(c); }
  }

  // ---- a stuck source ----

  /** The tests with given cutoffs as a function from nonempty traces to verdicts. */
  function Judging(c: Cutoffs): seq<word> -> Verdict
    requires c.window >= 1
  {
    (t: seq<word>) => if t == [] then Pass else Judge(c, t)
  }

  /** Sample j of xs passes when xs follows a trace that passed. */
  predicate PassesAt(judge: seq<word> -> Verdict, trace: seq<word>, xs: seq<word>, j: nat)
    requires j < |xs|
  {
    judge(trace + xs[..j + 1]).Pass?
  }

  lemma NextSample(judge: seq<word> -> Verdict, trace: seq<word>, xs: seq<word>, j: nat)
    requires j < |xs|
    ensures trace + xs[..j + 1] == trace + xs[..j] + [xs[j]]
    ensures PassesAt(judge, trace, xs, j) <==> judge(trace + xs[..j] + [xs[j]]).Pass?
  {
    assert trace + xs[..j + 1] == trace + xs[..j] + [xs[j]];
  }

  /** The first of the samples that fails after the given passing trace, or |xs| when none does. */
  function FirstFailure(judge: seq<word> -> Verdict, trace: seq<word>, xs: seq<word>): (k: nat)
    ensures k <= |xs|
    ensures forall j :: 0 <= j < k ==> PassesAt(judge, trace, xs, j)
    ensures k < |xs| ==> !PassesAt(judge, trace, xs, k)
  {
    FirstFailureFrom(judge, trace, xs, 0)
  }

  function FirstFailureFrom(judge: seq<word> -> Verdict, trace: seq<word>, xs: seq<word>, i: nat): (k: nat)
    requires i <= |xs|
    ensures i <= k <= |xs|
    ensures forall j :: i <= j < k ==> PassesAt(judge, trace, xs, j)
    ensures k < |xs| ==> !PassesAt(judge, trace, xs, k)
    decreases |xs| - i
  {
    if i < |xs| && PassesAt(judge, trace, xs, i) then FirstFailureFrom(judge, trace, xs, i + 1) else i
  }

  lemma FirstFailureIs(judge: seq<word> -> Verdict, trace: seq<word>, xs: seq<word>, k: nat)
    requires k <= |xs|
    requires forall j :: 0 <= j < k ==> PassesAt(judge, trace, xs, j)
    requires k < |xs| ==> !PassesAt(judge, trace, xs, k)
    ensures FirstFailure(judge, trace, xs) == k
  {}

  /** Whatever was seen before, a source that from its sample number k on keeps returning one value is
      rejected within RunLimit more samples. */
  lemma StuckIsRejected(c: Cutoffs, trace: seq<word>, xs: seq<word>, k: nat)
    requires c.window >= 1 && |xs| >= k + RunLimit(c)
    requires forall i :: k <= i < |xs| ==> xs[i] == xs[k]
    ensures FirstFailure(Judging(c), trace, xs) < k + RunLimit(c)
  {
    var n := RunLimit(c);
    var t := trace + xs[..k + n];
    assert ConstantBefore(t, |t|, n);
    RunIsConstant(t, n);
    assert !PassesAt(Judging(c), trace, xs, k + n - 1);
  }
}
