/** What the calls of reader.go come to, said without the functions of ReaderModel.dfy that compute it:
    what goes into the hash, which words and bytes come out, when a call succeeds, and what it leaves. */
module ReaderEffects {
  import opened Common
  import opened Bytes
  import opened HealthTests
  import opened Chunked
  import opened ReaderModel
  import opened ReaderInvariants
  import opened ReaderRuns
  import opened ReaderStreams
  import Sampling

  // ---- what is hashed ----

  const SEED_TEXT: string := "racerand/v1/seed\0"
  const TRNG_TEXT: string := "racerand/v1/trng\0"

  /** The string starts with the 17 characters of a domain separator. */
  ghost predicate HasDomain(d: seq<byte>, text: string) {
    |text| == 17 <= |d| && forall i :: 0 <= i < 17 ==> d[i] == text[i] as int
  }

  /** Sample number from + i is in the string, little-endian, i words after position at. */
  ghost predicate HoldsSample(w: World, d: seq<byte>, at: nat, from: nat, i: nat) {
    HoldsWord(d, at + 8 * i, w.sample(from + i))
  }

  /** The string is a domain separator, a prefix, n samples from number from on, and a tail. */
  ghost predicate IsHashed(w: World, d: seq<byte>, text: string, prefix: seq<byte>, from: nat, n: nat, tail: seq<byte>) {
    var at := 17 + |prefix|;
    && |d| == at + 8 * n + |tail| && HasDomain(d, text) && d[17..at] == prefix
    && (forall i :: 0 <= i < n ==> HoldsSample(w, d, at, from, i))
    && d[at + 8 * n..] == tail
  }

  lemma HashedParts(w: World, domain: seq<byte>, text: string, prefix: seq<byte>, from: nat, n: nat, tail: seq<byte>)
    requires HasDomain(domain, text) && |domain| == 17
    ensures IsHashed(w, domain + prefix + WordsBytes(Words(w, from, n)) + tail, text, prefix, from, n, tail)
  {
    var raw := WordsBytes(Words(w, from, n));
    var d := domain + prefix + raw + tail;
    var at := 17 + |prefix|;
    forall i | 0 <= i < n ensures HoldsSample(w, d, at, from, i) {
      WordsBytesAt(Words(w, from, n), i);
      assert d[at + 8 * i..at + 8 * i + 8] == raw[8 * i..8 * i + 8];
    }
  }

  lemma DomainsAreTexts()
    ensures HasDomain(SEED_DOMAIN, SEED_TEXT) && HasDomain(TRNG_DOMAIN, TRNG_TEXT)
    ensures |SEED_DOMAIN| == |TRNG_DOMAIN| == 17
  {}

  /** The key and the chaining value are the halves of the digest of the domain string, a chaining
      value, seedSamples samples from number from on, and system randomness. */
  ghost predicate IsSeed(w: World, c: Config, key: seq<byte>, chain: seq<byte>, before: seq<byte>, from: nat, os: seq<byte>) {
    |key| == |chain| == 32 &&
    exists d :: IsHashed(w, d, SEED_TEXT, before, from, c.seedSamples, os) && w.sha512(d) == key + chain
  }

  lemma RekeyHashes(w: World, c: Config, s: State, from: nat, os: seq<byte>)
    ensures var t := Rekey(w, s, Words(w, from, c.seedSamples), os);
      t.gen.Some? && IsSeed(w, c, t.gen.value.key, t.chain, s.chain, from, os)
  {
    var xs := Words(w, from, c.seedSamples);
    DomainsAreTexts();
    HashedParts(w, SEED_DOMAIN, SEED_TEXT, s.chain, from, c.seedSamples, os);
    var d := SeedInput(s.chain, xs, os);
    assert d == SEED_DOMAIN + s.chain + WordsBytes(xs) + os;
    assert w.sha512(d) == w.sha512(d)[..32] + w.sha512(d)[32..];
  }

  /** The system randomness of the next seed. */
  function OsNow(w: World, c: Config, s: State): seq<byte> {
    if c.mixOS && w.osRandom(s.osReads).Some? then w.osRandom(s.osReads).value else []
  }

  /** A successful seeding hashes the old chaining value and the samples it takes. */
  lemma SeedComesFromSamples(w: World, c: Config, s: State)
    requires ValidConfig(c) && ReseedLocked(w, c, s).out.Ok?
    ensures var t := ReseedLocked(w, c, s).s;
      && t.gen.Some? && t.gen.value.asked == []
      && IsSeed(w, c, t.gen.value.key, t.chain, s.chain, s.samples, OsNow(w, c, s))
      && t.since == 0 && t.seeds == s.seeds + 1 && t.samples == s.samples + c.seedSamples
  {
    var r := Harvest(w, c, s, c.seedSamples);
    RekeyHashes(w, c, r.s, s.samples, []);
    if c.mixOS {
      RekeyHashes(w, c, r.s.(osReads := r.s.osReads + 1), s.samples, OsNow(w, c, s));
    }
  }

  lemma {:induction false} SeedStartIs(c: Config, k: nat)
    ensures SeedStart(c, k) == c.startupSamples + k * c.seedSamples
  {
    if k > 0 { SeedStartIs(c, k - 1); }
  }

  /** Key number k of the stream theorem comes from the k-th batch of samples after the startup
      samples, and from all batches before it through the chaining value, at first 32 zero bytes. */
  lemma KeysComeFromSamples(w: World, c: Config, k: nat)
    requires k >= 1
    ensures IsSeed(w, c, KeyAt(w, c, k), ChainAt(w, c, k), ChainAt(w, c, k - 1),
                   c.startupSamples + (k - 1) * c.seedSamples, OsPart(w, c, k - 1))
    ensures ChainAt(w, c, 0) == Zeros(32)
  {
    SeedStartIs(c, k - 1);
    var from, os := SeedStart(c, k - 1), OsPart(w, c, k - 1);
    var s := Fresh(c).(chain := ChainAt(w, c, k - 1));
    RekeyHashes(w, c, s, from, os);
    assert Rekey(w, s, Words(w, from, c.seedSamples), os).chain == ChainAt(w, c, k);
  }

  lemma {:induction false} BlockStartIs(c: Config, k: nat)
    ensures BlockStart(c, k) == c.startupSamples + k * c.blockSamples
  {
    if k > 0 { BlockStartIs(c, k - 1); }
  }

  /** Digest number k of the ModeTRNG stream is that of the k-th batch after the startup samples. */
  lemma BlocksComeFromSamples(w: World, c: Config, k: nat)
    ensures exists d ::
      IsHashed(w, d, TRNG_TEXT, [], c.startupSamples + k * c.blockSamples, c.blockSamples, []) && w.sha512(d) == BlockAt(w, c, k)
  {
    BlockStartIs(c, k);
    DomainsAreTexts();
    var from, n := BlockStart(c, k), c.blockSamples;
    var raw := WordsBytes(Words(w, from, n));
    HashedParts(w, TRNG_DOMAIN, TRNG_TEXT, [], from, n, []);
    var d := TRNG_DOMAIN + [] + raw + [];
    assert d == TRNG_DOMAIN + raw;
    assert IsHashed(w, d, TRNG_TEXT, [], from, n, []) && w.sha512(d) == BlockAt(w, c, k);
  }

  // ---- when samples are good ----

  /** n samples from number from on pass the health tests, after a trace that passed. */
  ghost predicate AllPass(w: World, c: Config, trace: seq<word>, from: nat, n: nat) {
    c.skipHealth || forall j :: 0 <= j < n ==> PassesAt(c.judge, trace, Words(w, from, n), j)
  }

  /** Number from + k is the first of n samples that fails, with verdict v. */
  ghost predicate FirstBad(w: World, c: Config, trace: seq<word>, from: nat, n: nat, k: nat, v: Verdict) {
    && k < n && !c.skipHealth && !v.Pass? && v == c.judge(trace + Words(w, from, n)[..k + 1])
    && forall j :: 0 <= j < k ==> PassesAt(c.judge, trace, Words(w, from, n), j)
  }

  /** The trace after n samples that passed. */
  function Longer(w: World, c: Config, trace: seq<word>, from: nat, n: nat): seq<word> {
    if c.skipHealth then trace else trace + Words(w, from, n)
  }

  /** A harvest succeeds exactly when its samples pass, and otherwise stops right after the first that
      does not, reports it and starts the health tests over. */
  lemma HarvestEffect(w: World, c: Config, s: State, n: nat)
    requires ValidConfig(c)
    ensures var r := Harvest(w, c, s, n);
      && Untouched(s, r.s) && (r.out.Ok? <==> AllPass(w, c, s.trace, s.samples, n))
      && (r.out.Ok? ==> r.s.samples == s.samples + n && r.s.trace == Longer(w, c, s.trace, s.samples, n)
                        && r.s.failures == s.failures)
      && (r.out.Fail? ==> r.out.error.HealthFailure? && r.s.samples > s.samples && r.s.trace == []
                          && r.s.failures == s.failures + 1
                          && FirstBad(w, c, s.trace, s.samples, n, r.s.samples - s.samples - 1, r.out.error.verdict))
  {}

  // ---- when seeding and starting succeed ----

  /** A seed can be made of the samples from number from on. */
  ghost predicate CanSeed(w: World, c: Config, trace: seq<word>, from: nat, osReads: nat) {
    AllPass(w, c, trace, from, c.seedSamples) && (c.mixOS ==> w.osRandom(osReads).Some?)
  }

  /** Seeding succeeds exactly when a seed can be made, and otherwise leaves key and chaining value. */
  lemma ReseedLockedEffect(w: World, c: Config, s: State)
    requires ValidConfig(c)
    ensures var r := ReseedLocked(w, c, s);
      && (r.out.Ok? <==> CanSeed(w, c, s.trace, s.samples, s.osReads))
      && (r.out.Ok? ==> r.s.trace == Longer(w, c, s.trace, s.samples, c.seedSamples))
      && (r.out.Fail? ==> r.s.gen == s.gen && r.s.chain == s.chain && r.s.since == s.since && r.s.seeds == s.seeds)
      && r.out != Fail(NotEnoughProcs)
  {
    hide FirstFailure;
    HarvestEffect(w, c, s, c.seedSamples);
  }

  lemma ReseedLockedTouches(w: World, c: Config, s: State)
    requires ValidConfig(c)
    ensures var t := ReseedLocked(w, c, s).s;
      t == s.(gen := t.gen, chain := t.chain, since := t.since, seeds := t.seeds, samples := t.samples, trace := t.trace,
              failures := t.failures, osReads := t.osReads, idle := t.idle)
  {
    hide FirstFailure;
  }

  /** The samples from number from on are good enough to start on. */
  ghost predicate StartupPasses(w: World, c: Config, trace: seq<word>, from: nat) {
    c.skipHealth
    || (w.estimate(Words(w, from, c.startupSamples)) >= c.minEntropy && AllPass(w, c, trace, from, c.startupSamples))
  }

  /** The startup tests take all their samples, pass exactly when those are good enough, and report an
      estimate below the minimum before any health failure. */
  lemma StartupEffect(w: World, c: Config, s: State)
    requires ValidConfig(c)
    ensures var r := StartupTests(w, c, s);
      && (r.out.Ok? <==> StartupPasses(w, c, s.trace, s.samples))
      && r.s.samples == s.samples + c.startupSamples
      && (r.out.Ok? ==> r.s.trace == Longer(w, c, s.trace, s.samples, c.startupSamples))
      && (r.out == Fail(InsufficientEntropy) <==>
          !c.skipHealth && w.estimate(Words(w, s.samples, c.startupSamples)) < c.minEntropy)
      && r.out != Fail(NotEnoughProcs)
  {}

  lemma StartupTouches(w: World, c: Config, s: State)
    requires ValidConfig(c)
    ensures var t := StartupTests(w, c, s).s;
      t == s.(samples := t.samples, trace := t.trace, failures := t.failures, idle := t.idle)
  {
    hide FirstFailure;
  }

  ghost predicate CanStart(w: World, c: Config, trace: seq<word>, from: nat, osReads: nat) {
    && StartupPasses(w, c, trace, from)
    && (c.mode.ModeDrbg? ==>
        CanSeed(w, c, Longer(w, c, trace, from, c.startupSamples), from + c.startupSamples, osReads))
  }

  /** The samples a start takes. */
  function StartTakes(c: Config): nat {
    c.startupSamples + if c.mode.ModeDrbg? then c.seedSamples else 0
  }

  /** What a start that succeeded has done from the given state. */
  ghost predicate Started(w: World, c: Config, s: State, t: State) {
    && t.samples == s.samples + StartTakes(c)
    && t.trace == Longer(w, c, s.trace, s.samples, StartTakes(c))
    && (c.mode.ModeDrbg? ==>
        && t.gen.Some? && t.gen.value.asked == [] && t.since == 0 && t.seeds == s.seeds + 1
        && IsSeed(w, c, t.gen.value.key, t.chain, s.chain, s.samples + c.startupSamples, OsNow(w, c, s)))
  }

  /** What starting and seeding leave alone, failed or not. */
  predicate Untouched(s: State, t: State) {
    t.err == s.err && t.closed == s.closed && t.block == s.block && t.blockN == s.blockN && t.bytes == s.bytes
  }

  lemma LongerTwice(w: World, c: Config, trace: seq<word>, from: nat, n: nat, m: nat)
    ensures Longer(w, c, Longer(w, c, trace, from, n), from + n, m) == Longer(w, c, trace, from, n + m)
  {
    assert Words(w, from, n) + Words(w, from + n, m) == Words(w, from, n + m);
    assert (trace + Words(w, from, n)) + Words(w, from + n, m) == trace + (Words(w, from, n) + Words(w, from + n, m));
  }

  lemma StartLockedEffect(w: World, c: Config, s: State)
    requires ValidConfig(c)
    ensures var r := StartLocked(w, c, s);
      && (r.out.Ok? <==> CanStart(w, c, s.trace, s.samples, s.osReads))
      && (r.out.Ok? ==> Started(w, c, s, r.s))
      && r.out != Fail(NotEnoughProcs) && Untouched(s, r.s)
  {
    hide StartupTests, ReseedLocked, StartupPasses, CanSeed, IsSeed, Longer;
    StartupEffect(w, c, s);
    StartupTouches(w, c, s);
    var u := StartupTests(w, c, s).s;
    ReseedLockedEffect(w, c, u);
    ReseedLockedTouches(w, c, u);
    if ReseedLocked(w, c, u).out.Ok? { SeedComesFromSamples(w, c, u); }
    LongerTwice(w, c, s.trace, s.samples, c.startupSamples, c.seedSamples);
  }

  /** A start succeeds exactly with enough procs and good enough samples, and a Reader without enough
      procs says so. */
  lemma StartEffect(w: World, c: Config, s: State)
    requires ValidConfig(c)
    ensures var r := Start(w, c, s);
      && (r.out.Ok? <==> w.procs(s.looks) >= 2 && CanStart(w, c, s.trace, s.samples, s.osReads))
      && (r.out.Ok? ==> Started(w, c, s, r.s))
      && (r.out == Fail(NotEnoughProcs) <==> w.procs(s.looks) < 2)
      && Untouched(s, r.s)
  {
    hide StartLocked, CanStart, IsSeed, Longer;
    var (u, ok) := EnterWorkers(w, c, s);
    if ok { StartLockedEffect(w, c, u); }
  }
}
