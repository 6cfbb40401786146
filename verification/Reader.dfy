/** The Reader of reader.go as an object over its buffers, its harvester and its health tests: every
    method is proved to do what ReaderModel.dfy says, in place. */
module Reader {
  import opened Common
  import opened Bytes
  import opened HealthTests
  import opened Chunked
  import Sampling
  import M = ReaderModel

  /** Go's int on 64-bit platforms. */
  newtype int64 = x: int | -0x8000_0000_0000_0000 <= x < 0x8000_0000_0000_0000

  /** The harvester as its one caller sees it: workers that are up or down, and samples. */
  class Source {
    const w: M.World
    var running: bool
    var closed: bool
    var taken: nat
    var idle: nat   // samples taken while the workers were down

    constructor (w: M.World)
      ensures this.w == w && !running && !closed && taken == 0 && idle == 0
    {
      this.w := w;
      running, closed, taken, idle := false, false, 0, 0;
    }

    method Start()
      modifies `running
      ensures running == (old(running) || !closed)
    {
      if running || closed { return; }
      running := true;
    }

    method Stop()
      modifies `running
      ensures !running
    {
      running := false;
    }

    method Close()
      modifies `running, `closed
      ensures !running && closed
    {
      Stop();
      closed := true;
    }

    method Sample() returns (x: word)
      modifies `taken, `idle
      ensures x == w.sample(old(taken)) && taken == old(taken) + 1
      ensures idle == old(idle) + if running then 0 else 1
    {
      x := w.sample(taken);
      taken := taken + 1;
      if !running { idle := idle + 1; }
    }

    method Fill(dst: array<word>)
      modifies `taken, `idle, dst
      ensures dst[..] == M.Words(w, old(taken), dst.Length) && taken == old(taken) + dst.Length
      ensures idle == old(idle) + if running then 0 else dst.Length
    {
      for i := 0 to dst.Length
        invariant taken == old(taken) + i && idle == old(idle) + if running then 0 else i
        invariant dst[..i] == M.Words(w, old(taken), i)
      {
        dst[i] := Sample();
      }
      assert dst[..] == dst[..dst.Length];
    }
  }

  /** clear(p[lo..hi]). */
  method Clear(p: array<byte>, lo: nat, hi: nat)
    requires lo <= hi <= p.Length
    modifies p
    ensures p[..] == old(p[..lo]) + M.Zeros(hi - lo) + old(p[hi..])
  {
    for i := lo to hi
      invariant forall j :: lo <= j < i ==> p[j] == 0
      invariant forall j :: 0 <= j < p.Length && !(lo <= j < i) ==> p[j] == old(p[j])
    {
      p[i] := 0;
    }
  }

  function ErrorOf<T>(out: Outcome<T, M.Error>): Option<M.Error> {
    match out
    case Ok(_) => None
    case Fail(e) => Some(e)
  }

  /** The configured verdicts are those of the health tests with these cutoffs. */
  ghost predicate JudgesLike(judge: seq<word> -> Verdict, cutoffs: Cutoffs) {
    cutoffs.window >= 1 && judge == Judging(cutoffs)
  }

  class Reader {
    const w: M.World
    const c: M.Config
    const h: Source
    const health: Health?
    const buf: array<byte>
    const block: array<byte>
    var gen: Option<M.Generator>
    var chain: seq<byte>
    var blockN: nat
    var since: int64
    var err: Option<M.Error>
    var closed: bool
    var samples: nat
    var seeds: nat
    var bytes: nat
    var failures: nat
    var looks: nat
    var osReads: nat

    /** The parts fit together. */
    ghost predicate Valid()
      reads this, h, health
    {
      && M.ValidConfig(c)
      && h.w == w && h.taken == samples && h.closed == closed
      && (health == null <==> c.skipHealth)
      && (health != null ==> health.Valid() && JudgesLike(c.judge, health.cutoffs))
      && block.Length == 64 && buf != block
      && buf.Length >= 8 * c.seedSamples && buf.Length >= 8 * c.blockSamples
      && 0 <= since && (h.closed ==> !h.running)
    }

    /** The raw buffer holds nothing, as between calls. */
    ghost predicate BufferClear()
      reads buf
    {
      buf[..] == M.Zeros(buf.Length)
    }

    /** What the health tests have seen since their last reset. */
    ghost function Trace(): seq<word>
      reads this, health
    {
      if health == null then [] else health.trace
    }

    /** The state of the model this object is in. */
    ghost function Abs(): M.State
      reads this, h, health, block
      requires 0 <= since
    {
      M.State(err, closed, h.running, Trace(), gen, chain, block[..], blockN, since as nat, samples, seeds, bytes, failures, looks, osReads, h.idle)
    }

    /** The object and everything it owns. */
    ghost function Parts(): set<object> {
      {this, h, buf, block} + if health == null then {} else {health}
    }

    /** The Reader before its startup tests. */
    constructor (w: M.World, c: M.Config, cutoffs: Cutoffs)
      requires M.ValidConfig(c) && JudgesLike(c.judge, cutoffs)
      ensures Valid() && BufferClear() && fresh(h) && fresh(buf) && fresh(block) && (health != null ==> fresh(health))
      ensures this.w == w && this.c == c && Abs() == M.Fresh(c).(looks := 0, running := false)
    {
      this.w, this.c := w, c;
      h := new Source(w);
      if c.skipHealth {
        health := null;
      } else {
        health := new Health.Of(cutoffs);
      }
      buf := new byte[8 * Max(c.seedSamples, Max(c.blockSamples, c.startupSamples))](_ => 0);
      block := new byte[64](_ => 0);
      gen, chain, blockN, since := None, M.Zeros(32), 0, 0;
      err, closed := None, false;
      samples, seeds, bytes, failures, looks, osReads := 0, 0, 0, 0, 0, 0;
    }

    // ---- workers ----

    method EnterWorkers() returns (ok: bool)
      requires Valid()
      modifies `looks, h`running
      ensures Valid() && (Abs(), ok) == M.EnterWorkers(w, c, old(Abs()))
    {
      var procs := w.procs(looks);
      looks := looks + 1;
      if procs < 2 {
        if c.persistent { h.Stop(); }
        return false;
      }
      if !c.persistent { h.Start(); }
      return true;
    }

    method LeaveWorkers(failed: bool)
      requires Valid()
      modifies h`running
      ensures Valid() && Abs() == M.LeaveWorkers(c, old(Abs()), failed)
    {
      if !c.persistent || failed { h.Stop(); }
    }

    // ---- harvesting ----

    /** One sample through the health tests: a failure is counted. */
    method CheckOne(s: word) returns (v: Verdict)
      requires Valid() && health != null
      modifies `failures, health
      ensures Valid() && v == c.judge(old(Trace()) + [s])
      ensures Trace() == if v.Pass? then old(Trace()) + [s] else []
      ensures failures == old(failures) + if v.Pass? then 0 else 1
    {
      hide Health.Valid, Judge, TrailingRun, LastRepeats, WindowEnds;
      v := health.Check(s);
      if !v.Pass? { failures := failures + 1; }
    }

    /** One sample from the source, through the health tests if there are any. */
    method CheckedSample() returns (s: word, v: Verdict)
      requires Valid()
      modifies `samples, `failures, h`taken, h`idle, health
      ensures Valid() && s == w.sample(old(samples))
      ensures samples == old(samples) + 1 && h.idle == old(h.idle) + if h.running then 0 else 1
      ensures v == if c.skipHealth then Pass else c.judge(old(Trace()) + [s])
      ensures Trace() == if c.skipHealth then [] else if v.Pass? then old(Trace()) + [s] else []
      ensures failures == old(failures) + if v.Pass? then 0 else 1
    {
      s := h.Sample();
      samples := samples + 1;
      v := Pass;
      if health != null { v := CheckOne(s); }
    }

    /** The first k samples are in the buffer, and nothing else. */
    ghost predicate Gathered(b: seq<byte>, xs: seq<word>, k: nat) {
      k <= |xs| && 8 * k <= |b| && b == WordsBytes(xs[..k]) + M.Zeros(|b| - 8 * k)
    }

    lemma NothingGathered(xs: seq<word>)
      requires BufferClear()
      ensures Gathered(buf[..], xs, 0)
    {}

    /** Sample number i of a harvest into the buffer, if it passes. */
    method HarvestOne(i: nat, ghost xs: seq<word>) returns (v: Verdict)
      requires Valid() && i < |xs| && 8 * |xs| <= buf.Length && xs[i] == w.sample(samples)
      requires Gathered(buf[..], xs, i)
      modifies `samples, `failures, h`taken, h`idle, health, buf
      ensures Valid()
      ensures samples == old(samples) + 1 && h.idle == old(h.idle) + if h.running then 0 else 1
      ensures v == if c.skipHealth then Pass else c.judge(old(Trace()) + [xs[i]])
      ensures Trace() == if c.skipHealth then [] else if v.Pass? then old(Trace()) + [xs[i]] else []
      ensures failures == old(failures) + if v.Pass? then 0 else 1
      ensures Gathered(buf[..], xs, if v.Pass? then i + 1 else i)
    {
      var s;
      s, v := CheckedSample();
      if v.Pass? {
        Copy(buf, 8 * i, WordBytes(s));
        assert xs[..i + 1][..i] == xs[..i];
      }
    }

    /** Samples until n have passed, or until one fails: the first k passed and are in the buffer. */
    method HarvestLoop(n: nat) returns (k: nat, v: Verdict)
      requires Valid() && BufferClear() && 8 * n <= buf.Length
      modifies `samples, `failures, h`taken, h`idle, health, buf
      ensures Valid() && k <= n
      ensures var xs := M.Words(w, old(samples), n);
        && k == (if c.skipHealth then n else FirstFailure(c.judge, old(Trace()), xs))
        && (k < n ==> v == c.judge(old(Trace()) + xs[..k + 1]))
        && Trace() == (if c.skipHealth || k < n then [] else old(Trace()) + xs)
        && Gathered(buf[..], xs, k)
      ensures samples == old(samples) + Taken(k, n) && failures == old(failures) + if k == n then 0 else 1
      ensures h.idle == old(h.idle) + if h.running then 0 else Taken(k, n)
    {
      hide Health.Valid, JudgesLike, WordsBytes, FirstFailure, PassesAt, Gathered, BufferClear, M.Words;
      ghost var xs := M.Words(w, samples, n);
      ghost var t0 := Trace();
      NothingGathered(xs);
      k, v := 0, Pass;
      while k < n
        invariant Valid() && k <= n
        invariant Gathered(buf[..], xs, k)
        invariant samples == old(samples) + k && failures == old(failures)
        invariant h.idle == old(h.idle) + if h.running then 0 else k
        invariant Trace() == if c.skipHealth then [] else t0 + xs[..k]
        invariant !c.skipHealth ==> forall j :: 0 <= j < k ==> PassesAt(c.judge, t0, xs, j)
      {
        NextSample(c.judge, t0, xs, k);
        M.WordAt(w, old(samples), n, k);
        v := HarvestOne(k, xs);
        if !v.Pass? {
          FirstFailureIs(c.judge, t0, xs, k);
          return;
        }
        k := k + 1;
      }
      assert xs[..n] == xs;
      if !c.skipHealth { FirstFailureIs(c.judge, t0, xs, n); }
    }

    /** The samples taken when k of n passed before the first failure. */
    ghost function Taken(k: nat, n: nat): nat {
      if k == n then n else k + 1
    }

    lemma HarvestOutcome(s: M.State, n: nat, k: nat, v: Verdict)
      requires M.ValidConfig(c) && k <= n && (c.skipHealth ==> s.trace == [])
      requires var xs := M.Words(w, s.samples, n);
        && k == (if c.skipHealth then n else FirstFailure(c.judge, s.trace, xs))
        && (k < n ==> v == c.judge(s.trace + xs[..k + 1]))
      ensures M.Harvest(w, c, s, n) == Step(Harvested(s, n, k), HarvestResult(s, n, k, v))
    {}

    ghost function Harvested(s: M.State, n: nat, k: nat): M.State {
      M.TakeSamples(s, Taken(k, n)).(
        trace := if c.skipHealth || k < n then [] else s.trace + M.Words(w, s.samples, n),
        failures := s.failures + if k == n then 0 else 1)
    }

    ghost function HarvestResult(s: M.State, n: nat, k: nat, v: Verdict): Outcome<seq<word>, M.Error> {
      if k < n then Fail(M.HealthFailure(v)) else Ok(M.Words(w, s.samples, n))
    }

    /** Fills the start of the buffer with n samples that passed, or leaves it clear. */
    method Harvest(n: nat) returns (e: Option<M.Error>)
      requires Valid() && BufferClear() && 8 * n <= buf.Length
      modifies `samples, `failures, h`taken, h`idle, health, buf
      ensures Valid()
      ensures Abs() == M.Harvest(w, c, old(Abs()), n).s && e == ErrorOf(M.Harvest(w, c, old(Abs()), n).out)
      ensures if e.Some? then BufferClear()
              else buf[..] == WordsBytes(M.Words(w, old(samples), n)) + M.Zeros(buf.Length - 8 * n)
    {
      hide Health.Valid, JudgesLike, WordsBytes, FirstFailure;
      ghost var s := Abs();
      var k, v := HarvestLoop(n);
      HarvestOutcome(s, n, k, v);
      assert Abs() == Harvested(s, n, k);
      assert M.Words(w, s.samples, n)[..n] == M.Words(w, s.samples, n);
      e := None;
      if k < n {
        Clear(buf, 0, 8 * n);
        e := Some(M.HealthFailure(v));
      }
    }

    /** Hashes the chain, the raw samples in the buffer and any system randomness into a new key and a new
        chaining value, and wipes the samples. */
    method Rekey(os: seq<byte>, ghost xs: seq<word>)
      requires Valid() && |xs| == c.seedSamples
      requires buf[..] == WordsBytes(xs) + M.Zeros(buf.Length - 8 * |xs|)
      modifies `gen, `chain, `since, `seeds, buf
      ensures Valid() && BufferClear()
      ensures Abs() == M.Rekey(w, old(Abs()), xs, os)
    {
      hide Health.Valid, WordsBytes;
      var raw := buf[..8 * c.seedSamples];
      var d := w.sha512(M.SEED_DOMAIN + chain + raw + os);
      gen := Some(M.Generator(d[..32], []));
      chain := d[32..];
      since := 0;
      seeds := seeds + 1;
      Clear(buf, 0, 8 * c.seedSamples);
    }

    /** A new key and chaining value from fresh samples; the samples do not outlive the call. */
    method ReseedLocked() returns (e: Option<M.Error>)
      requires Valid() && BufferClear()
      modifies this, h`taken, h`idle, health, buf
      ensures Valid() && BufferClear()
      ensures Abs() == M.ReseedLocked(w, c, old(Abs())).s && e == ErrorOf(M.ReseedLocked(w, c, old(Abs())).out)
    {
      hide Health.Valid, M.Harvest, M.Rekey, WordsBytes;
      ghost var xs := M.Words(w, samples, c.seedSamples);
      e := Harvest(c.seedSamples);
      if e.Some? { return; }
      if !c.mixOS {
        Rekey([], xs);
        return;
      }
      var os := w.osRandom(osReads);
      osReads := osReads + 1;
      if os.None? {
        Clear(buf, 0, 8 * c.seedSamples);
        return Some(M.OsRandomFailure);
      }
      Rekey(os.value, xs);
    }

    method Reseed() returns (e: Option<M.Error>)
      requires Valid() && BufferClear()
      modifies this, h, health, buf
      ensures Valid() && BufferClear()
      ensures Abs() == M.Reseed(w, c, old(Abs())).s && e == ErrorOf(M.Reseed(w, c, old(Abs())).out)
    {
      hide Health.Valid, M.ReseedLocked;
      var ok := EnterWorkers();
      if !ok { return Some(M.NotEnoughProcs); }
      e := ReseedLocked();
      LeaveWorkers(e.Some?);
    }

    /** Drawn samples through the health tests, up to the first that fails. */
    method CheckAll(xs: array<word>) returns (k: nat, v: Verdict)
      requires Valid() && health != null
      modifies `failures, health
      ensures Valid() && k == FirstFailure(c.judge, old(Trace()), xs[..])
      ensures if k == xs.Length then v == Pass else v == c.judge(old(Trace()) + xs[..k + 1])
      ensures Trace() == if k == xs.Length then old(Trace()) + xs[..] else []
      ensures failures == old(failures) + if k == xs.Length then 0 else 1
    {
      hide Health.Valid, JudgesLike, FirstFailure, PassesAt;
      ghost var t0 := Trace();
      k, v := 0, Pass;
      while k < xs.Length
        invariant Valid() && k <= xs.Length && v == Pass
        invariant Trace() == t0 + xs[..k] && failures == old(failures)
        invariant forall j :: 0 <= j < k ==> PassesAt(c.judge, t0, xs[..], j)
      {
        NextSample(c.judge, t0, xs[..], k);
        assert xs[..][..k] == xs[..k] && xs[..][..k + 1] == xs[..k + 1];
        v := CheckOne(xs[k]);
        if !v.Pass? {
          FirstFailureIs(c.judge, t0, xs[..], k);
          return;
        }
        k := k + 1;
      }
      assert xs[..xs.Length] == xs[..];
      FirstFailureIs(c.judge, t0, xs[..], k);
    }

    /** The startup tests: all samples first, then the estimate, then the health tests. */
    method StartupTests() returns (e: Option<M.Error>)
      requires Valid()
      modifies `samples, `failures, h`taken, h`idle, health
      ensures Valid()
      ensures Abs() == M.StartupTests(w, c, old(Abs())).s && e == ErrorOf(M.StartupTests(w, c, old(Abs())).out)
    {
      hide Health.Valid, JudgesLike, FirstFailure;
      var n := c.startupSamples;
      var drawn := new word[n];
      h.Fill(drawn);
      samples := samples + n;
      var est := w.estimate(drawn[..]);
      if !c.skipHealth && est < c.minEntropy {
        return Some(M.InsufficientEntropy);
      }
      if health != null {
        var k, v := CheckAll(drawn);
        if k < n { return Some(M.HealthFailure(v)); }
      }
      return None;
    }

    /** Startup tests and, in ModeDRBG, a seed, with the workers up. */
    method Start() returns (e: Option<M.Error>)
      requires Valid() && BufferClear()
      modifies this, h, health, buf
      ensures Valid() && BufferClear()
      ensures Abs() == M.Start(w, c, old(Abs())).s && e == ErrorOf(M.Start(w, c, old(Abs())).out)
    {
      hide Health.Valid, M.ReseedLocked, M.StartupTests;
      var ok := EnterWorkers();
      if !ok { return Some(M.NotEnoughProcs); }
      e := StartupTests();
      if e.None? && c.mode.ModeDrbg? {
        e := ReseedLocked();
      }
      LeaveWorkers(e.Some?);
    }

    // ---- reading ----

    /** A buffer a caller may hand in: none of the Reader's own. */
    ghost predicate Foreign(p: array<byte>) {
      p != buf && p != block
    }

    method Refresh() returns (e: Option<M.Error>)
      requires Valid() && BufferClear() && gen.Some?
      modifies this, h, health, buf
      ensures Valid() && BufferClear()
      ensures Abs() == M.Refresh(w, c, old(Abs())).s && e == ErrorOf(M.Refresh(w, c, old(Abs())).out)
    {
      hide Health.Valid, M.Reseed;
      e := None;
      if since as int >= c.interval {
        e := Reseed();
      }
    }

    /** n bytes of the generator into p from position i on; the position cannot overflow. */
    method Draw(p: array<byte>, i: nat, n: nat)
      requires Valid() && Foreign(p) && i + n <= p.Length && gen.Some? && since as int + n <= c.interval
      modifies `gen, `since, p
      ensures Valid() && Abs() == M.Draw(old(Abs()), n)
      ensures p[..i + n] == old(p[..i]) + M.Answer(w, old(gen).value, n)
    {
      hide Health.Valid;
      var g := gen.value;
      Copy(p, i, M.Answer(w, g, n));
      gen := Some(g.(asked := g.asked + [M.ReadRequest(n)]));
      since := since + n as int64;
    }

    /** One round of the ModeDRBG loop. */
    method DrbgRound(p: array<byte>, i: nat) returns (e: Option<M.Error>, n: nat)
      requires Valid() && BufferClear() && Foreign(p) && i < p.Length && gen.Some? && since as int <= c.interval
      modifies this, h, health, buf, p
      ensures Valid() && BufferClear()
      ensures var r := M.Refresh(w, c, old(Abs()));
        if e.Some? then r == Step(Abs(), Fail(e.value))
        else
          && r.out.Ok? && n == Min(p.Length - i, c.interval - r.s.since) && Abs() == M.Draw(r.s, n)
          && p[..i + n] == old(p[..i]) + M.Answer(w, r.s.gen.value, n)
    {
      hide Health.Valid, M.Refresh;
      n := 0;
      e := Refresh();
      if e.Some? { return; }
      n := Min(p.Length - i, c.interval - since as int);
      Draw(p, i, n);
    }

    method ReadDrbg(p: array<byte>) returns (e: Option<M.Error>)
      requires Valid() && BufferClear() && Foreign(p) && gen.Some? && since as int <= c.interval
      modifies this, h, health, buf, p
      ensures Valid() && BufferClear()
      ensures var r := M.ReadDrbg(w, c, old(Abs()), p.Length);
        Abs() == r.s && e == ErrorOf(r.out) && (e.None? ==> p[..] == r.out.value)
    {
      hide Health.Valid, M.Refresh, M.ReadDrbg;
      var i := 0;
      ghost var whole := M.ReadDrbg(w, c, Abs(), p.Length);
      assert whole == Prepend(p[..0], whole) by { PrependNothing(whole); }
      while i < p.Length
        invariant Valid() && BufferClear() && i <= p.Length && gen.Some? && since as int <= c.interval
        invariant whole == Prepend(p[..i], M.ReadDrbg(w, c, Abs(), p.Length - i))
      {
        ghost var s, done := Abs(), p[..i];
        M.DrbgChunk(w, c, s, p.Length - i);
        var n;
        e, n := DrbgRound(p, i);
        if e.Some? { return; }
        PrependTwice(done, M.Answer(w, M.Refresh(w, c, s).s.gen.value, n), M.ReadDrbg(w, c, Abs(), p.Length - i - n));
        i := i + n;
      }
      M.DrbgNothing(w, c, Abs());
      return None;
    }

    /** A fresh digest in the block; the samples do not outlive the call. */
    method FillBlock() returns (e: Option<M.Error>)
      requires Valid() && BufferClear()
      modifies this, h`taken, h`idle, health, buf, block
      ensures Valid() && BufferClear()
      ensures Abs() == M.FillBlock(w, c, old(Abs())).s && e == ErrorOf(M.FillBlock(w, c, old(Abs())).out)
      ensures gen == old(gen) && (e.None? ==> blockN == 64)
    {
      hide Health.Valid, M.Harvest, WordsBytes;
      e := Harvest(c.blockSamples);
      if e.Some? { return; }
      var raw := buf[..8 * c.blockSamples];
      Copy(block, 0, w.sha512(M.TRNG_DOMAIN + raw));
      Clear(buf, 0, 8 * c.blockSamples);
      blockN := 64;
    }

    /** Hands k bytes of the block to p from position i on, and wipes them. */
    method Deliver(p: array<byte>, i: nat) returns (k: nat)
      requires Valid() && Foreign(p) && i < p.Length && 0 < blockN <= 64
      modifies `blockN, block, p
      ensures Valid() && k == Min(p.Length - i, old(blockN)) && Abs() == M.Consume(old(Abs()), k)
      ensures p[..i + k] == old(p[..i]) + old(block[64 - blockN..64 - blockN + k])
      ensures BufferClear() == old(BufferClear())
    {
      hide Health.Valid;
      var start := 64 - blockN;
      k := Min(p.Length - i, blockN);
      Copy(p, i, block[start..start + k]);
      Clear(block, start, start + k);
      blockN := blockN - k;
    }

    /** A block with bytes left in it. */
    method Refill() returns (e: Option<M.Error>)
      requires Valid() && BufferClear() && blockN <= 64
      modifies this, h`taken, h`idle, health, buf, block
      ensures Valid() && BufferClear() && gen == old(gen)
      ensures Abs() == M.Refill(w, c, old(Abs())).s && e == ErrorOf(M.Refill(w, c, old(Abs())).out)
    {
      hide Health.Valid, M.FillBlock;
      e := None;
      if blockN == 0 {
        e := FillBlock();
      }
    }

    /** One round of the ModeTRNG loop. */
    method TrngRound(p: array<byte>, i: nat) returns (e: Option<M.Error>, k: nat)
      requires Valid() && BufferClear() && Foreign(p) && i < p.Length && blockN <= 64
      modifies this, h`taken, h`idle, health, buf, block, p
      ensures Valid() && BufferClear() && gen == old(gen)
      ensures var r := M.Refill(w, c, old(Abs()));
        if e.Some? then r == Step(Abs(), Fail(e.value))
        else
          && r.out.Ok? && k == Min(p.Length - i, r.s.blockN) && Abs() == M.Consume(r.s, k)
          && p[..i + k] == old(p[..i]) + r.s.block[64 - r.s.blockN..64 - r.s.blockN + k]
    {
      hide Health.Valid, M.Refill, M.Consume;
      k := 0;
      e := Refill();
      if e.Some? { return; }
      k := Deliver(p, i);
    }

    method ReadTrng(p: array<byte>) returns (e: Option<M.Error>)
      requires Valid() && BufferClear() && Foreign(p) && blockN <= 64
      modifies this, h`taken, h`idle, health, buf, block, p
      ensures Valid() && BufferClear()
      ensures var r := M.ReadTrng(w, c, old(Abs()), p.Length);
        Abs() == r.s && e == ErrorOf(r.out) && (e.None? ==> p[..] == r.out.value)
    {
      hide Health.Valid, M.Refill, M.ReadTrng;
      var i := 0;
      ghost var whole := M.ReadTrng(w, c, Abs(), p.Length);
      assert whole == Prepend(p[..0], whole) by { PrependNothing(whole); }
      while i < p.Length
        invariant Valid() && BufferClear() && i <= p.Length && blockN <= 64
        invariant whole == Prepend(p[..i], M.ReadTrng(w, c, Abs(), p.Length - i))
      {
        ghost var s, done := Abs(), p[..i];
        ghost var r := M.Refill(w, c, s).s;
        M.TrngChunk(w, c, s, p.Length - i);
        var k;
        e, k := TrngRound(p, i);
        if e.Some? { return; }
        PrependTwice(done, r.block[64 - r.blockN..64 - r.blockN + k], M.ReadTrng(w, c, Abs(), p.Length - i - k));
        i := i + k;
      }
      M.TrngNothing(w, c, Abs());
      return None;
    }

    /** The first k bytes are the folds of the first k samples. */
    ghost predicate FoldedInto(b: seq<byte>, xs: seq<word>, k: nat) {
      k <= |b| == |xs| && b[..k] == M.Folded(xs)[..k]
    }

    lemma NothingFolded(b: seq<byte>, xs: seq<word>)
      requires |b| == |xs|
      ensures FoldedInto(b, xs, 0)
    {}

    method PutFold(p: array<byte>, k: nat, s: word, ghost xs: seq<word>)
      requires k < p.Length && FoldedInto(p[..], xs, k) && xs[k] == s
      modifies p
      ensures FoldedInto(p[..], xs, k + 1)
    {
      hide Sampling.FoldWord;
      M.FoldedAt(xs, k);
      p[k] := Sampling.FoldWord(s);
    }

    /** Samples folded into p until it is full or one fails: the first k passed. */
    method RawLoop(p: array<byte>) returns (k: nat, v: Verdict)
      requires Valid() && Foreign(p)
      modifies `samples, `failures, h`taken, h`idle, health, p
      ensures Valid() && k <= p.Length
      ensures var xs := M.Words(w, old(samples), p.Length);
        && k == (if c.skipHealth then p.Length else FirstFailure(c.judge, old(Trace()), xs))
        && (k < p.Length ==> v == c.judge(old(Trace()) + xs[..k + 1]))
        && Trace() == (if c.skipHealth || k < p.Length then [] else old(Trace()) + xs)
        && FoldedInto(p[..], xs, k)
      ensures samples == old(samples) + Taken(k, p.Length) && failures == old(failures) + if k == p.Length then 0 else 1
      ensures h.idle == old(h.idle) + if h.running then 0 else Taken(k, p.Length)
    {
      hide Health.Valid, JudgesLike, FirstFailure, PassesAt, M.Words, FoldedInto;
      ghost var xs := M.Words(w, samples, p.Length);
      ghost var t0 := Trace();
      k, v := 0, Pass;
      NothingFolded(p[..], xs);
      while k < p.Length
        invariant Valid() && k <= p.Length
        invariant FoldedInto(p[..], xs, k)
        invariant samples == old(samples) + k && failures == old(failures)
        invariant h.idle == old(h.idle) + if h.running then 0 else k
        invariant Trace() == if c.skipHealth then [] else t0 + xs[..k]
        invariant !c.skipHealth ==> forall j :: 0 <= j < k ==> PassesAt(c.judge, t0, xs, j)
      {
        NextSample(c.judge, t0, xs, k);
        M.WordAt(w, old(samples), p.Length, k);
        var s;
        s, v := CheckedSample();
        if !v.Pass? {
          FirstFailureIs(c.judge, t0, xs, k);
          return;
        }
        PutFold(p, k, s, xs);
        k := k + 1;
      }
      assert xs[..k] == xs;
      if !c.skipHealth { FirstFailureIs(c.judge, t0, xs, k); }
    }

    method ReadRaw(p: array<byte>) returns (e: Option<M.Error>)
      requires Valid() && BufferClear() && Foreign(p)
      modifies `samples, `failures, h`taken, h`idle, health, p
      ensures Valid() && BufferClear()
      ensures var r := M.ReadRaw(w, c, old(Abs()), p.Length);
        Abs() == r.s && e == ErrorOf(r.out) && (e.None? ==> p[..] == r.out.value)
    {
      hide Health.Valid, M.Harvest;
      ghost var s := Abs();
      var k, v := RawLoop(p);
      HarvestOutcome(s, p.Length, k, v);
      assert Abs() == Harvested(s, p.Length, k);
      assert k == p.Length ==> p[..] == p[..k];
      e := if k == p.Length then None else Some(M.HealthFailure(v));
    }

    /** A read in the configured mode, with the workers up where the mode needs them. */
    method ReadByMode(p: array<byte>) returns (e: Option<M.Error>)
      requires Valid() && BufferClear() && Foreign(p) && M.Usable(c, Abs()) && !closed
      modifies this, h, health, buf, block, p
      ensures Valid() && BufferClear()
      ensures var r := M.ReadByMode(w, c, old(Abs()), p.Length);
        Abs() == r.s && e == ErrorOf(r.out) && (e.None? ==> p[..] == r.out.value)
    {
      hide Health.Valid, M.ReadDrbg, M.ReadTrng, M.ReadRaw;
      if c.mode.ModeDrbg? {
        e := ReadDrbg(p);
        return;
      }
      var ok := EnterWorkers();
      if !ok { return Some(M.NotEnoughProcs); }
      if c.mode.ModeTrng? {
        e := ReadTrng(p);
      } else {
        e := ReadRaw(p);
      }
      LeaveWorkers(e.Some?);
    }

    method TryRead(p: array<byte>) returns (e: Option<M.Error>)
      requires Valid() && BufferClear() && Foreign(p) && M.Usable(c, Abs())
      modifies this, h, health, buf, block, p
      ensures Valid() && BufferClear()
      ensures var r := M.Read(w, c, old(Abs()), p.Length);
        Abs() == r.s && e == ErrorOf(r.out) && (e.None? ==> p[..] == r.out.value)
    {
      hide Health.Valid, M.ReadByMode;
      if closed { return Some(M.Closed); }
      if err.Some? { return err; }
      if p.Length == 0 { return None; }
      e := ReadByMode(p);
      if e.Some? {
        err := e;
        return;
      }
      bytes := bytes + p.Length;
    }

    /** Fills all of p, or returns an error and leaves p all zero. */
    method Read(p: array<byte>) returns (n: nat, e: Option<M.Error>)
      requires Valid() && BufferClear() && Foreign(p) && M.Usable(c, Abs())
      modifies this, h, health, buf, block, p
      ensures Valid() && BufferClear()
      ensures var r := M.Read(w, c, old(Abs()), p.Length);
        && Abs() == r.s && e == ErrorOf(r.out)
        && (if e.None? then n == p.Length && p[..] == r.out.value else n == 0 && p[..] == M.Zeros(p.Length))
    {
      hide Health.Valid, M.Read;
      e := TryRead(p);
      if e.Some? {
        Clear(p, 0, p.Length);
        return 0, e;
      }
      return p.Length, None;
    }

    /** A new seed unless a whole word is left of the interval. */
    method RefreshForWord() returns (e: Option<M.Error>)
      requires Valid() && BufferClear() && gen.Some? && c.interval >= 8
      modifies this, h, health, buf
      ensures Valid() && BufferClear()
      ensures Abs() == M.RefreshForWord(w, c, old(Abs())).s && e == ErrorOf(M.RefreshForWord(w, c, old(Abs())).out)
    {
      hide Health.Valid, M.Reseed;
      e := None;
      if since as int > c.interval - 8 {
        e := Reseed();
      }
    }

    /** The generator's next word. */
    method DrawWord() returns (x: word)
      requires Valid() && gen.Some? && since as int <= c.interval - 8
      modifies `gen, `since, `bytes
      ensures Valid() && x == w.nextWord(old(gen).value) && Abs() == M.DrawWord(old(Abs()))
    {
      hide Health.Valid;
      since := since + 8;
      bytes := bytes + 8;
      var g := gen.value;
      gen := Some(g.(asked := g.asked + [M.WordRequest]));
      x := w.nextWord(g);
    }

    /** The next word; an error stands for the panic. */
    method Uint64() returns (x: Outcome<word, M.Error>)
      requires Valid() && BufferClear() && M.Usable(c, Abs())
      modifies this, h, health, buf, block
      ensures Valid() && BufferClear()
      ensures M.Uint64(w, c, old(Abs())) == Step(Abs(), x)
    {
      hide Health.Valid, M.Read, M.RefreshForWord, M.DrawWord;
      if c.mode.ModeDrbg? && err.None? && !closed && c.interval >= 8 {
        var e := RefreshForWord();
        if e.Some? {
          err := e;
          return Fail(e.value);
        }
        var word := DrawWord();
        return Ok(word);
      }
      var b := new byte[8];
      var e := TryRead(b);
      if e.Some? { return Fail(e.value); }
      return Ok(WordOf(b[..]));
    }

    /** Forces a new seed in ModeDRBG. */
    method ForceReseed() returns (e: Option<M.Error>)
      requires Valid() && BufferClear()
      modifies this, h, health, buf
      ensures Valid() && BufferClear()
      ensures Abs() == M.ForceReseed(w, c, old(Abs())).s && e == ErrorOf(M.ForceReseed(w, c, old(Abs())).out)
    {
      hide Health.Valid, M.Reseed;
      if closed { return Some(M.Closed); }
      if err.Some? { return err; }
      if !c.mode.ModeDrbg? { return None; }
      e := Reseed();
      if e.Some? { err := e; }
    }

    /** Clears a failure by starting over. */
    method Reset() returns (e: Option<M.Error>)
      requires Valid() && BufferClear()
      modifies this, h, health, buf, block
      ensures Valid() && BufferClear()
      ensures Abs() == M.Reset(w, c, old(Abs())).s && e == ErrorOf(M.Reset(w, c, old(Abs())).out)
    {
      hide M.Start;
      if closed { return Some(M.Closed); }
      ghost var s := Abs();
      err := None;
      blockN := 0;
      Clear(block, 0, 64);
      if health != null { health.Reset(); }
      if c.persistent { h.Start(); }
      assert block[..] == M.Zeros(64);
      assert Abs() == s.(err := None, blockN := 0, block := M.Zeros(64), trace := [], running := s.running || c.persistent);
      e := Start();
      if e.Some? { err := e; }
    }

    /** Stops the workers for good and wipes everything the Reader holds. */
    method Close()
      requires Valid() && BufferClear()
      modifies this, h, buf, block
      ensures Valid() && BufferClear() && Abs() == M.Close(old(Abs()))
      ensures closed && h.closed && !h.running
      ensures !old(closed) ==> gen.None? && chain == M.Zeros(32) && block[..] == M.Zeros(64) && blockN == 0
    {
      hide Health.Valid;
      if closed { return; }
      closed := true;
      h.Close();
      gen := None;
      chain := M.Zeros(32);
      Clear(block, 0, 64);
      Clear(buf, 0, buf.Length);
      blockN := 0;
    }

    /** New: the Reader it returns has passed its startup tests. */
    static method New(w: M.World, c: M.Config, cutoffs: Cutoffs) returns (r: Reader?, e: Option<M.Error>)
      requires M.ValidConfig(c) && JudgesLike(c.judge, cutoffs)
      ensures e == ErrorOf(M.New(w, c).out) && (r == null <==> e.Some?)
      ensures r != null ==> r.Valid() && r.BufferClear() && r.w == w && r.c == c && r.Abs() == M.New(w, c).s
      ensures r != null ==> fresh(r.Parts())
    {
      hide M.Start;
      var procs := w.procs(0);
      if procs < 2 { return null, Some(M.NotEnoughProcs); }
      var reader := new Reader(w, c, cutoffs);
      reader.looks := 1;
      if c.persistent { reader.h.Start(); }
      e := reader.Start();
      if e.Some? {
        reader.h.Close();
        return null, e;
      }
      return reader, None;
    }
  }
}
