/** Guessing the next sample from the previous one: the pair counts of stattest/stattest.go give the
    score of the best possible predictor. */
module ConditionalGuess {
  import opened Common

  type Predictor = int -> int

  /** How often c follows a among the first k samples. */
  function Pairs(s: seq<int>, a: int, c: int, k: nat): nat
    requires k <= |s|
  {
    if k <= 1 then 0 else Pairs(s, a, c, k - 1) + if s[k - 2] == a && s[k - 1] == c then 1 else 0
  }

  /** How often f guesses right among the first k samples. */
  ghost function Hits(s: seq<int>, f: Predictor, k: nat): nat
    requires k <= |s|
  {
    if k <= 1 then 0 else Hits(s, f, k - 1) + if s[k - 1] == f(s[k - 2]) then 1 else 0
  }

  /** score is the largest number of right guesses any predictor achieves on s. */
  ghost predicate BestScore(s: seq<int>, score: nat) {
    && (forall f: Predictor :: Hits(s, f, |s|) <= score)
    && (exists f: Predictor :: Hits(s, f, |s|) == score)
  }

  lemma BestScoreUnique(s: seq<int>, x: nat, y: nat)
    requires BestScore(s, x) && BestScore(s, y)
    ensures x == y
  {}

  // ---- adding up the guesses context by context ----

  /** The right guesses of f after a sample in A. */
  ghost function HitsAfter(s: seq<int>, f: Predictor, A: set<int>, k: nat): nat
    requires k <= |s|
  {
    if k <= 1 then 0
    else HitsAfter(s, f, A, k - 1) + if s[k - 2] in A && s[k - 1] == f(s[k - 2]) then 1 else 0
  }

  lemma {:induction false} OneMoreContext(s: seq<int>, f: Predictor, A: set<int>, a: int, k: nat)
    requires k <= |s| && a !in A
    ensures HitsAfter(s, f, A + {a}, k) == HitsAfter(s, f, A, k) + Pairs(s, a, f(a), k)
  {
    if k > 1 { OneMoreContext(s, f, A, a, k - 1); }
  }

  lemma {:induction false} SameOnContexts(s: seq<int>, f: Predictor, g: Predictor, A: set<int>, k: nat)
    requires k <= |s| && forall x :: x in A ==> f(x) == g(x)
    ensures HitsAfter(s, f, A, k) == HitsAfter(s, g, A, k)
  {
    if k > 1 { SameOnContexts(s, f, g, A, k - 1); }
  }

  lemma {:induction false} AllContexts(s: seq<int>, f: Predictor, A: set<int>, k: nat)
    requires k <= |s| && forall i :: 0 <= i < k - 1 ==> s[i] in A
    ensures HitsAfter(s, f, A, k) == Hits(s, f, k)
  {
    if k > 1 { AllContexts(s, f, A, k - 1); }
  }

  /** score is the most any predictor gets right after the samples in A. */
  ghost predicate BestAfter(s: seq<int>, A: set<int>, score: nat) {
    && (forall f: Predictor :: HitsAfter(s, f, A, |s|) <= score)
    && (exists f: Predictor :: HitsAfter(s, f, A, |s|) == score)
  }

  /** m is the largest number of times one value follows a. */
  ghost predicate MostFrequent(s: seq<int>, a: int, m: nat) {
    && (forall c :: Pairs(s, a, c, |s|) <= m)
    && (exists c :: Pairs(s, a, c, |s|) == m)
  }

  lemma {:induction false} NoContextNoHits(s: seq<int>, f: Predictor, k: nat)
    requires k <= |s|
    ensures HitsAfter(s, f, {}, k) == 0
  {
    if k > 1 { NoContextNoHits(s, f, k - 1); }
  }

  lemma BestAfterNothing(s: seq<int>)
    ensures BestAfter(s, {}, 0)
  {
    forall f: Predictor ensures HitsAfter(s, f, {}, |s|) == 0 { NoContextNoHits(s, f, |s|); }
    var f: Predictor := x => 0;
    assert HitsAfter(s, f, {}, |s|) == 0;
  }

  /** The best guess after one more context adds the count of its most frequent successor. */
  lemma BestAfterOneMore(s: seq<int>, A: set<int>, score: nat, a: int, m: nat)
    requires BestAfter(s, A, score) && a !in A && MostFrequent(s, a, m)
    ensures BestAfter(s, A + {a}, score + m)
  {
    forall f: Predictor ensures HitsAfter(s, f, A + {a}, |s|) <= score + m {
      OneMoreContext(s, f, A, a, |s|);
    }
    var f: Predictor :| HitsAfter(s, f, A, |s|) == score;
    var c :| Pairs(s, a, c, |s|) == m;
    var g: Predictor := x => if x == a then c else f(x);
    SameOnContexts(s, f, g, A, |s|);
    OneMoreContext(s, g, A, a, |s|);
    assert HitsAfter(s, g, A + {a}, |s|) == score + m;
  }

  lemma BestOverall(s: seq<int>, A: set<int>, score: nat)
    requires BestAfter(s, A, score) && forall i :: 0 <= i < |s| - 1 ==> s[i] in A
    ensures BestScore(s, score)
  {
    forall f: Predictor ensures HitsAfter(s, f, A, |s|) == Hits(s, f, |s|) {
      AllContexts(s, f, A, |s|);
    }
    var f: Predictor :| HitsAfter(s, f, A, |s|) == score;
    assert Hits(s, f, |s|) == score;
  }

  // ---- consequences ----

  /** How often v occurs after the first sample, among the first k samples. */
  function Later(s: seq<int>, v: int, k: nat): nat
    requires k <= |s|
  {
    if k <= 1 then 0 else Later(s, v, k - 1) + if s[k - 1] == v then 1 else 0
  }

  lemma {:induction false} ConstantGuess(s: seq<int>, v: int, k: nat)
    requires k <= |s|
    ensures Hits(s, x => v, k) == Later(s, v, k)
  {
    if k > 1 { ConstantGuess(s, v, k - 1); }
  }

  /** Knowing the previous sample never hurts: the score is at least the count of every value. */
  lemma ScoreAtLeastMode(s: seq<int>, score: nat, v: int)
    requires BestScore(s, score)
    ensures Later(s, v, |s|) <= score
  {
    ConstantGuess(s, v, |s|);
    var f: Predictor := x => v;
    assert Hits(s, f, |s|) <= score;
  }

  // ---- the byte version: a 256 by 256 table ----

  ghost predicate Tabulated(pair: array2<nat>, s: seq<int>, k: nat)
    reads pair
  {
    && pair.Length0 == pair.Length1 == 256 && k <= |s|
    && forall a, c :: 0 <= a < 256 && 0 <= c < 256 ==> pair[a, c] == Pairs(s, a, c, k)
  }

  method CountPairs(data: seq<byte>) returns (pair: array2<nat>)
    requires |data| >= 2
    ensures Tabulated(pair, data, |data|)
  {
    pair := new nat[256, 256]((_, _) => 0);
    for i := 1 to |data|
      invariant Tabulated(pair, data, i)
    {
      pair[data[i - 1], data[i]] := pair[data[i - 1], data[i]] + 1;
    }
  }

  lemma {:induction false} NoSuchValue(s: seq<byte>, a: int, c: int, k: nat)
    requires k <= |s| && !(0 <= c < 256)
    ensures Pairs(s, a, c, k) == 0
  {
    if k > 1 { NoSuchValue(s, a, c, k - 1); }
  }

  method RowMaximum(pair: array2<nat>, data: seq<byte>, a: nat) returns (m: nat)
    requires Tabulated(pair, data, |data|) && a < 256
    ensures MostFrequent(data, a, m)
  {
    m := 0;
    ghost var at := 0;
    for c := 0 to 256
      invariant forall x :: 0 <= x < c ==> pair[a, x] <= m
      invariant 0 <= at < 256 && (c > 0 ==> pair[a, at] == m) && (c == 0 ==> m == 0)
    {
      if pair[a, c] >= m { at := c; }
      m := Max(m, pair[a, c]);
    }
    forall c ensures Pairs(data, a, c, |data|) <= m {
      if !(0 <= c < 256) { NoSuchValue(data, a, c, |data|); }
    }
    assert Pairs(data, a, at, |data|) == m;
  }

  /** The numerator and denominator of the guessing probability of a byte sequence: the score of the
      best predictor of a byte from the byte before, and the number of guesses. */
  method GuessBytes(data: seq<byte>) returns (r: Option<(nat, nat)>)
    ensures r.None? <==> |data| < 2
    ensures r.Some? ==> BestScore(data, r.value.0) && r.value.1 == |data| - 1
  {
    if |data| < 2 { return None; }
    var pair := CountPairs(data);
    var sum := 0;
    ghost var done: set<int> := {};
    BestAfterNothing(data);
    for a := 0 to 256
      invariant Tabulated(pair, data, |data|)
      invariant forall x :: x in done <==> 0 <= x < a
      invariant BestAfter(data, done, sum)
    {
      var m := RowMaximum(pair, data, a);
      BestAfterOneMore(data, done, sum, a, m);
      sum := sum + m;
      done := done + {a};
    }
    BestOverall(data, done, sum);
    return Some((sum, |data| - 1));
  }

  // ---- the 64-bit version: maps from pairs and from contexts ----

  ghost predicate Mapped(pairs: map<(int, int), nat>, s: seq<int>, k: nat)
    requires k <= |s|
  {
    && (forall a, c :: (a, c) in pairs ==> pairs[(a, c)] == Pairs(s, a, c, k))
    && (forall a, c :: (a, c) !in pairs ==> Pairs(s, a, c, k) == 0)
  }

  method MapPairs(s: seq<int>) returns (pairs: map<(int, int), nat>)
    ensures Mapped(pairs, s, |s|)
    ensures forall i :: 1 <= i < |s| ==> (s[i - 1], s[i]) in pairs
  {
    pairs := map[];
    if |s| < 2 { return; }
    for i := 1 to |s|
      invariant Mapped(pairs, s, i)
      invariant forall j :: 1 <= j < i ==> (s[j - 1], s[j]) in pairs
    {
      var key := (s[i - 1], s[i]);
      pairs := pairs[key := (if key in pairs then pairs[key] else 0) + 1];
    }
  }

  /** best holds, for each first component in done, the largest count in done. */
  ghost predicate BestOf(best: map<int, nat>, pairs: map<(int, int), nat>, done: set<(int, int)>)
    requires done <= pairs.Keys
  {
    && (forall p :: p in done ==> p.0 in best && pairs[p] <= best[p.0])
    && (forall a :: a in best ==> exists p :: p in done && p.0 == a && pairs[p] == best[a])
  }

  lemma BestOfStep(best: map<int, nat>, pairs: map<(int, int), nat>, done: set<(int, int)>, k: (int, int))
    requires done <= pairs.Keys && BestOf(best, pairs, done) && k in pairs
    ensures BestOf(best[k.0 := Max(if k.0 in best then best[k.0] else 0, pairs[k])], pairs, done + {k})
  {
    var next := best[k.0 := Max(if k.0 in best then best[k.0] else 0, pairs[k])];
    forall a | a in next ensures exists p :: p in done + {k} && p.0 == a && pairs[p] == next[a] {
      if a in best && next[a] == best[a] {
        var p :| p in done && p.0 == a && pairs[p] == best[a];
        assert p in done + {k};
      } else {
        assert k in done + {k};
      }
    }
  }

  method BestPerContext(pairs: map<(int, int), nat>) returns (best: map<int, nat>)
    ensures BestOf(best, pairs, pairs.Keys)
  {
    best := map[];
    var todo := pairs.Keys;
    while todo != {}
      invariant todo <= pairs.Keys
      invariant BestOf(best, pairs, pairs.Keys - todo)
    {
      var k :| k in todo;
      BestOfStep(best, pairs, pairs.Keys - todo, k);
      best := best[k.0 := Max(if k.0 in best then best[k.0] else 0, pairs[k])];
      assert pairs.Keys - (todo - {k}) == pairs.Keys - todo + {k};
      todo := todo - {k};
    }
  }

  method AnyOf<T>(todo: set<T>) returns (a: T)
    requires todo != {}
    ensures a in todo
  {
    a :| a in todo;
  }

  /** The same probability for 64-bit samples. */
  method GuessSamples(samples: seq<int>) returns (r: Option<(nat, nat)>)
    ensures r.None? <==> |samples| < 2
    ensures r.Some? ==> BestScore(samples, r.value.0) && r.value.1 == |samples| - 1
  {
    if |samples| < 2 { return None; }
    var pairs := MapPairs(samples);
    var best := BestPerContext(pairs);
    var sum := 0;
    var todo := best.Keys;
    BestAfterNothing(samples);
    assert best.Keys - todo == {};
    while todo != {}
      invariant todo <= best.Keys
      invariant BestAfter(samples, best.Keys - todo, sum)
    {
      var a := AnyOf(todo);
      BestIsMostFrequent(samples, pairs, best, a);
      BestAfterOneMore(samples, best.Keys - todo, sum, a, best[a]);
      assert best.Keys - (todo - {a}) == (best.Keys - todo) + {a};
      sum := sum + best[a];
      todo := todo - {a};
    }
    assert best.Keys - todo == best.Keys;
    forall i | 0 <= i < |samples| - 1 ensures samples[i] in best {
      assert (samples[i + 1 - 1], samples[i + 1]) in pairs;
    }
    BestOverall(samples, best.Keys, sum);
    return Some((sum, |samples| - 1));
  }

  lemma BestIsMostFrequent(s: seq<int>, pairs: map<(int, int), nat>, best: map<int, nat>, a: int)
    requires Mapped(pairs, s, |s|) && BestOf(best, pairs, pairs.Keys) && a in best
    ensures MostFrequent(s, a, best[a])
  {
    forall c ensures Pairs(s, a, c, |s|) <= best[a] {
      if (a, c) in pairs { assert pairs[(a, c)] <= best[(a, c).0]; }
    }
    var p :| p in pairs.Keys && p.0 == a && pairs[p] == best[a];
    assert p == (p.0, p.1);
    assert Pairs(s, a, p.1, |s|) == best[a];
  }

  /** On the same sequence the table version and the map version agree. */
  method VersionsAgree(data: seq<byte>) returns (x: Option<(nat, nat)>, y: Option<(nat, nat)>)
    ensures x == y
  {
    x := GuessBytes(data);
    y := GuessSamples(data);
    if x.Some? { BestScoreUnique(data, x.value.0, y.value.0); }
  }
}
