/** Every sample a working Reader has used has been through the health tests and passed, and a Reader
    on a healthy source never fails. */
module ReaderVetting {
  import opened Common
  import opened Bytes
  import opened HealthTests
  import opened Chunked
  import opened ReaderModel
  import opened ReaderInvariants
  import opened ReaderRuns
  import opened ReaderEffects
  import opened ReaderCallEffects

  // ---- what the health tests have seen ----

  /** The trace is all samples taken since the last reset, and every one of them passed. */
  ghost predicate Vetted(w: World, c: Config, s: State) {
    c.skipHealth ||
    (&& |s.trace| <= s.samples && s.trace == Words(w, s.samples - |s.trace|, |s.trace|)
     && forall k :: 0 < k <= |s.trace| ==> PassedAt(c, s.trace, k))
  }

  ghost predicate PassedAt(c: Config, trace: seq<word>, k: nat)
    requires k <= |trace|
  {
    c.judge(trace[..k]).Pass?
  }

  lemma LongerVetted(w: World, c: Config, s: State, t: State, n: nat)
    requires Vetted(w, c, s) && AllPass(w, c, s.trace, s.samples, n)
    requires t.samples == s.samples + n && t.trace == Longer(w, c, s.trace, s.samples, n)
    ensures Vetted(w, c, t)
  {
    if !c.skipHealth {
      var m, from := |s.trace|, s.samples - |s.trace|;
      assert Words(w, from, m) + Words(w, from + m, n) == Words(w, from, m + n);
      forall k | 0 < k <= m + n ensures PassedAt(c, t.trace, k) {
        if k <= m {
          assert PassedAt(c, s.trace, k);
          assert t.trace[..k] == s.trace[..k];
        } else {
          assert PassesAt(c.judge, s.trace, Words(w, s.samples, n), k - m - 1);
          assert t.trace[..k] == s.trace + Words(w, s.samples, n)[..k - m];
        }
      }
    }
  }

  lemma HarvestVetted(w: World, c: Config, s: State, n: nat)
    requires ValidConfig(c) && Vetted(w, c, s) && Harvest(w, c, s, n).out.Ok?
    ensures Vetted(w, c, Harvest(w, c, s, n).s)
  {
    hide Harvest, Vetted;
    HarvestEffect(w, c, s, n);
    LongerVetted(w, c, s, Harvest(w, c, s, n).s, n);
  }

  lemma ReseedLockedVetted(w: World, c: Config, s: State)
    requires ValidConfig(c) && Vetted(w, c, s) && ReseedLocked(w, c, s).out.Ok?
    ensures Vetted(w, c, ReseedLocked(w, c, s).s)
  {
    hide Harvest;
    HarvestVetted(w, c, s, c.seedSamples);
  }

  lemma ReseedVetted(w: World, c: Config, s: State)
    requires ValidConfig(c) && Vetted(w, c, s) && Reseed(w, c, s).out.Ok?
    ensures Vetted(w, c, Reseed(w, c, s).s)
  {
    hide ReseedLocked;
    ReseedLockedVetted(w, c, EnterWorkers(w, c, s).0);
  }

  lemma StartVetted(w: World, c: Config, s: State)
    requires ValidConfig(c) && s.trace == [] && Start(w, c, s).out.Ok?
    ensures Vetted(w, c, Start(w, c, s).s)
  {
    hide StartupTests, ReseedLocked, Vetted;
    var u := EnterWorkers(w, c, s).0;
    StartupEffect(w, c, u);
    var t := StartupTests(w, c, u).s;
    EmptyVetted(w, c, u);
    LongerVetted(w, c, u, t, c.startupSamples);
    if c.mode.ModeDrbg? { ReseedLockedVetted(w, c, t); }
    VettedOf(w, c);
  }

  lemma EmptyVetted(w: World, c: Config, s: State)
    requires s.trace == []
    ensures Vetted(w, c, s)
  {}

  /** Being vetted depends on the samples only. */
  lemma VettedOf(w: World, c: Config)
    ensures forall s: State, t: State {:trigger Vetted(w, c, s), Vetted(w, c, t)} :: s.samples == t.samples && s.trace == t.trace ==> Vetted(w, c, s) == Vetted(w, c, t)
  {}

  ghost function VettedIn(w: World, c: Config): (State, nat) -> bool {
    (s: State, d: nat) => Vetted(w, c, s)
  }

  ghost function Anything(): State -> bool {
    (s: State) => true
  }

  lemma DrawVetted(w: World, c: Config, s: State, n: nat)
    requires s.gen.Some? && Vetted(w, c, s)
    ensures Vetted(w, c, Draw(s, n))
  {}

  lemma RefreshVetted(w: World, c: Config, s: State)
    requires ValidConfig(c) && s.gen.Some? && Vetted(w, c, s) && Refresh(w, c, s).out.Ok?
    ensures Vetted(w, c, Refresh(w, c, s).s)
  {
    hide Reseed, Vetted;
    if s.since >= c.interval { ReseedVetted(w, c, s); }
  }

  lemma ReadDrbgVetted(w: World, c: Config, s: State, n: nat)
    requires ValidConfig(c) && s.gen.Some? && s.since <= c.interval && Vetted(w, c, s) && ReadDrbg(w, c, s, n).out.Ok?
    ensures Vetted(w, c, ReadDrbg(w, c, s, n).s)
  {
    hide Refresh, Draw, Vetted;
    var p, inv, bad := DrbgSupply(w, c), VettedIn(w, c), Anything();
    DrbgSupplyWorks(w, c);
    forall s, d | p.ok(s) && inv(s, d) ensures ReadyKeeps(p, inv, bad, s, d) {
      if Refresh(w, c, s).out.Ok? { RefreshVetted(w, c, s); }
    }
    forall s, d, k: nat | p.ok(s) && inv(s, d) && k <= p.room(s) ensures GiveKeeps(p, inv, s, d, k) {
      DrawVetted(w, c, s, k);
    }
    ChunksKeep(p, inv, bad, s, 0, n);
  }

  lemma RefillVetted(w: World, c: Config, s: State)
    requires ValidConfig(c) && |s.block| == 64 && s.blockN <= 64 && Vetted(w, c, s) && Refill(w, c, s).out.Ok?
    ensures Vetted(w, c, Refill(w, c, s).s)
  {
    hide Harvest;
    if s.blockN == 0 { HarvestVetted(w, c, s, c.blockSamples); }
  }

  lemma ConsumeVetted(w: World, c: Config, s: State, k: nat)
    requires |s.block| == 64 && k <= s.blockN <= 64 && Vetted(w, c, s)
    ensures Vetted(w, c, Consume(s, k))
  {}

  lemma ReadTrngVetted(w: World, c: Config, s: State, n: nat)
    requires ValidConfig(c) && |s.block| == 64 && s.blockN <= 64 && Vetted(w, c, s) && ReadTrng(w, c, s, n).out.Ok?
    ensures Vetted(w, c, ReadTrng(w, c, s, n).s)
  {
    hide Refill, Consume, Vetted;
    var p, inv, bad := TrngSupply(w, c), VettedIn(w, c), Anything();
    TrngSupplyWorks(w, c);
    forall s, d | p.ok(s) && inv(s, d) ensures ReadyKeeps(p, inv, bad, s, d) {
      if Refill(w, c, s).out.Ok? { RefillVetted(w, c, s); }
    }
    forall s, d, k: nat | p.ok(s) && inv(s, d) && k <= p.room(s) ensures GiveKeeps(p, inv, s, d, k) {
      ConsumeVetted(w, c, s, k);
    }
    ChunksKeep(p, inv, bad, s, 0, n);
  }

  lemma ReadByModeVetted(w: World, c: Config, s: State, n: nat)
    requires ValidConfig(c) && Usable(c, s) && !s.closed && Vetted(w, c, s) && ReadByMode(w, c, s, n).out.Ok?
    ensures Vetted(w, c, ReadByMode(w, c, s, n).s)
  {
    hide ReadDrbg, ReadTrng, Harvest;
    if c.mode.ModeDrbg? {
      ReadDrbgVetted(w, c, s, n);
    } else {
      var u := EnterWorkers(w, c, s).0;
      if c.mode.ModeTrng? { ReadTrngVetted(w, c, u, n); } else { HarvestVetted(w, c, u, n); }
    }
  }

  /** A Reader without an error has used nothing but samples that passed. */
  ghost predicate Clean(w: World, c: Config, s: State) {
    s.err.None? ==> Vetted(w, c, s)
  }

  lemma ReadClean(w: World, c: Config, s: State, n: nat)
    requires ValidConfig(c) && Usable(c, s) && Clean(w, c, s)
    ensures Clean(w, c, Read(w, c, s, n).s)
  {
    hide ReadByMode, Vetted;
    if !s.closed && s.err.None? && n > 0 && ReadByMode(w, c, s, n).out.Ok? { ReadByModeVetted(w, c, s, n); }
    VettedOf(w, c);
  }

  lemma CallClean(w: World, c: Config, s: State, call: Call)
    requires ValidConfig(c) && Usable(c, s) && Clean(w, c, s)
    ensures Clean(w, c, ReaderInvariants.After(w, c, s, call))
  {
    hide Read, Reseed, Start, Vetted;
    VettedOf(w, c);
    match call
    case DoRead(n) => ReadClean(w, c, s, n);
    case DoUint64 =>
      ReadClean(w, c, s, 8);
      if s.err.None? && Reseed(w, c, s).out.Ok? { ReseedVetted(w, c, s); }
    case DoReseed => if s.err.None? && Reseed(w, c, s).out.Ok? { ReseedVetted(w, c, s); }
    case DoReset =>
      var u := s.(err := None, blockN := 0, block := Zeros(64), trace := [], running := s.running || c.persistent);
      if Start(w, c, u).out.Ok? { StartVetted(w, c, u); }
    case DoClose =>
  }

  /** After every call of every sequence of calls: while the Reader has no error the health tests have
      seen every sample taken since they were last reset, in order, and passed every one. */
  lemma {:induction false} AlwaysClean(w: World, c: Config, calls: seq<Call>, states: seq<State>, i: nat)
    requires History(w, c, calls, states) && i < |states|
    ensures Clean(w, c, states[i])
  {
    hide Vetted, Start, ReaderInvariants.After;
    if i == 0 {
      StartVetted(w, c, Fresh(c));
    } else {
      AlwaysClean(w, c, calls, states, i - 1);
      assert CallAt(w, c, calls, states, i - 1);
      CallClean(w, c, states[i - 1], calls[i - 1]);
    }
  }

  // ---- a healthy source ----

  /** Enough procs at every look, system randomness at every read, and no stretch of samples that the
      health tests fail at its end. */
  ghost predicate Healthy(w: World, c: Config) {
    && (forall i :: w.procs(i) >= 2) && (forall i :: w.osRandom(i).Some?)
    && (forall from, n :: n > 0 ==> StretchPasses(w, c, from, n))
  }

  ghost predicate StretchPasses(w: World, c: Config, from: nat, n: nat) {
    c.skipHealth || c.judge(Words(w, from, n)).Pass?
  }

  lemma HealthyPasses(w: World, c: Config, s: State, n: nat)
    requires Healthy(w, c) && Vetted(w, c, s)
    ensures AllPass(w, c, s.trace, s.samples, n)
  {
    if !c.skipHealth {
      var m, from := |s.trace|, s.samples - |s.trace|;
      var xs := Words(w, s.samples, n);
      forall j | 0 <= j < n ensures PassesAt(c.judge, s.trace, xs, j) {
        assert s.trace + xs[..j + 1] == Words(w, from, m + j + 1);
        assert StretchPasses(w, c, from, m + j + 1);
      }
    }
  }

  lemma HealthyReseeds(w: World, c: Config, s: State)
    requires ValidConfig(c) && Healthy(w, c) && Vetted(w, c, s)
    ensures Reseed(w, c, s).out.Ok?
  {
    hide Reseed, Vetted;
    HealthyPasses(w, c, s, c.seedSamples);
    ReseedEffect(w, c, s);
  }

  ghost function Nothing(): State -> bool {
    (s: State) => false
  }

  lemma HealthyRefresh(w: World, c: Config, s: State)
    requires ValidConfig(c) && Healthy(w, c) && Vetted(w, c, s) && s.gen.Some?
    ensures Refresh(w, c, s).out.Ok? && Vetted(w, c, Refresh(w, c, s).s)
  {
    hide Reseed, Vetted;
    HealthyReseeds(w, c, s);
    ReseedVetted(w, c, s);
  }

  lemma HealthyDrbg(w: World, c: Config, s: State, n: nat)
    requires ValidConfig(c) && Healthy(w, c) && Vetted(w, c, s) && s.gen.Some? && s.since <= c.interval
    ensures ReadDrbg(w, c, s, n).out.Ok?
  {
    hide Refresh, Draw, Healthy, Vetted;
    var p, inv, bad := DrbgSupply(w, c), VettedIn(w, c), Nothing();
    DrbgSupplyWorks(w, c);
    forall s, d | p.ok(s) && inv(s, d) ensures ReadyKeeps(p, inv, bad, s, d) { HealthyRefresh(w, c, s); }
    forall s, d, k: nat | p.ok(s) && inv(s, d) && k <= p.room(s) ensures GiveKeeps(p, inv, s, d, k) {
      DrawVetted(w, c, s, k);
    }
    ChunksKeep(p, inv, bad, s, 0, n);
  }

  lemma HealthyHarvest(w: World, c: Config, s: State, n: nat)
    requires ValidConfig(c) && Healthy(w, c) && Vetted(w, c, s)
    ensures Harvest(w, c, s, n).out.Ok? && Vetted(w, c, Harvest(w, c, s, n).s)
  {
    hide Harvest, Vetted;
    HealthyPasses(w, c, s, n);
    HarvestEffect(w, c, s, n);
    HarvestVetted(w, c, s, n);
  }

  lemma HealthyRefill(w: World, c: Config, s: State)
    requires ValidConfig(c) && Healthy(w, c) && Vetted(w, c, s) && |s.block| == 64 && s.blockN <= 64
    ensures Refill(w, c, s).out.Ok? && Vetted(w, c, Refill(w, c, s).s)
  {
    hide Harvest, Healthy;
    HealthyHarvest(w, c, s, c.blockSamples);
  }

  lemma HealthyTrng(w: World, c: Config, s: State, n: nat)
    requires ValidConfig(c) && Healthy(w, c) && Vetted(w, c, s) && |s.block| == 64 && s.blockN <= 64
    ensures ReadTrng(w, c, s, n).out.Ok?
  {
    hide Refill, Consume, Vetted, Healthy;
    var p, inv, bad := TrngSupply(w, c), VettedIn(w, c), Nothing();
    TrngSupplyWorks(w, c);
    forall s, d | p.ok(s) && inv(s, d) ensures ReadyKeeps(p, inv, bad, s, d) { HealthyRefill(w, c, s); }
    forall s, d, k: nat | p.ok(s) && inv(s, d) && k <= p.room(s) ensures GiveKeeps(p, inv, s, d, k) {
      ConsumeVetted(w, c, s, k);
    }
    ChunksKeep(p, inv, bad, s, 0, n);
  }

  lemma HealthyReads(w: World, c: Config, s: State, n: nat)
    requires ValidConfig(c) && Healthy(w, c) && Vetted(w, c, s) && Usable(c, s) && !s.closed && s.err.None?
    ensures Read(w, c, s, n).out.Ok?
  {
    hide ReadDrbg, ReadTrng, Harvest;
    if n > 0 {
      if c.mode.ModeDrbg? {
        HealthyDrbg(w, c, s, n);
      } else {
        var (u, ok) := EnterWorkers(w, c, s);
        if c.mode.ModeTrng? { HealthyTrng(w, c, u, n); } else { HealthyHarvest(w, c, u, n); }
      }
    }
  }

  /** While the source is healthy a Reader without an error never fails: every read of every length,
      every word and every reseed succeeds, in every mode and after every sequence of calls. */
  lemma HealthyNeverFails(w: World, c: Config, calls: seq<Call>, states: seq<State>, i: nat, n: nat)
    requires Healthy(w, c) && History(w, c, calls, states) && i < |states| && !states[i].closed && states[i].err.None?
    ensures Usable(c, states[i])
    ensures var s := states[i]; Read(w, c, s, n).out.Ok? && Uint64(w, c, s).out.Ok? && ForceReseed(w, c, s).out.Ok?
  {
    hide Reseed, Read, Vetted;
    AlwaysBetween(w, c, calls, states, i);
    AlwaysClean(w, c, calls, states, i);
    HealthyReads(w, c, states[i], n);
    HealthyReads(w, c, states[i], 8);
    HealthyReseeds(w, c, states[i]);
  }
}
