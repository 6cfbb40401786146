/** What holds of a Reader after every sequence of calls: its workers, its byte budget, its wiped
    buffers and its sticky error. */
module ReaderInvariants {
  import opened Common
  import opened Bytes
  import opened HealthTests
  import opened Chunked
  import opened ReaderModel

  datatype Call = DoRead(n: nat) | DoUint64 | DoReseed | DoReset | DoClose

  ghost function After(w: World, c: Config, s: State, call: Call): State
    requires ValidConfig(c) && Usable(c, s)
  {
    match call
    case DoRead(n) => Read(w, c, s, n).s
    case DoUint64 => Uint64(w, c, s).s
    case DoReseed => ForceReseed(w, c, s).s
    case DoReset => Reset(w, c, s).s
    case DoClose => Close(s)
  }

  // ---- the invariants ----

  function Amount(r: Request): nat {
    if r.ReadRequest? then r.n else 8
  }

  /** The bytes a generator has produced since it was keyed. */
  function Drawn(asked: seq<Request>): nat {
    if asked == [] then 0 else Drawn(asked[..|asked| - 1]) + Amount(asked[|asked| - 1])
  }

  lemma DrawnMore(asked: seq<Request>, r: Request)
    ensures Drawn(asked + [r]) == Drawn(asked) + Amount(r)
  {
    assert (asked + [r])[..|asked|] == asked;
  }

  /** How many bytes the seeds so far and the current position allow: a whole interval for every seed
      but the last. */
  function Allowance(interval: nat, seeds: nat, since: nat): nat {
    if seeds == 0 then 0
    else if seeds == 1 then since
    else interval + Allowance(interval, seeds - 1, since)
  }

  lemma {:induction false} AllowanceFormula(interval: nat, seeds: nat, since: nat)
    requires seeds > 0
    ensures Allowance(interval, seeds, since) == (seeds - 1) * interval + since
  {
    if seeds > 1 { AllowanceFormula(interval, seeds - 1, since); }
  }

  lemma {:induction false} AllowanceReseed(interval: nat, seeds: nat, since: nat)
    requires since <= interval
    ensures Allowance(interval, seeds, since) <= Allowance(interval, seeds + 1, 0)
  {
    if seeds > 1 { AllowanceReseed(interval, seeds - 1, since); }
  }

  lemma {:induction false} AllowanceDraw(interval: nat, seeds: nat, since: nat, n: nat)
    requires seeds > 0
    ensures Allowance(interval, seeds, since + n) == Allowance(interval, seeds, since) + n
  {
    if seeds > 1 { AllowanceDraw(interval, seeds - 1, since, n); }
  }

  /** No key has produced more than interval bytes, since counts exactly what the current key has
      produced, and the bytes returned, with those drawn for the call in progress, are covered by the
      intervals of the seeds so far. */
  ghost predicate Budget(c: Config, s: State, drawn: nat) {
    && s.since <= c.interval
    && (s.gen.Some? ==> s.seeds > 0 && Drawn(s.gen.value.asked) == s.since)
    && s.bytes + drawn <= Allowance(c.interval, s.seeds, s.since)
  }

  /** The chain and the block are whole, and the part of the block already handed out is zero. */
  ghost predicate Wiped(s: State) {
    && |s.chain| == 32 && |s.block| == 64 && s.blockN <= 64
    && s.block[..64 - s.blockN] == Zeros(64 - s.blockN)
  }

  ghost predicate Data(c: Config, s: State, drawn: nat) {
    && Wiped(s)
    && (c.mode.ModeDrbg? ==> Budget(c, s, drawn))
    && s.idle == 0
  }

  /** During a call on an open Reader that has not failed. */
  ghost predicate Open(c: Config, s: State, drawn: nat) {
    Data(c, s, drawn) && !s.closed && s.err.None?
  }

  /** Between calls: the workers run exactly on an open persistent Reader without an error, and a closed
      Reader has let go of everything. */
  ghost predicate Between(c: Config, s: State) {
    && Data(c, s, 0) && Usable(c, s)
    && (s.running <==> c.persistent && s.err.None? && !s.closed)
    && (s.closed ==> s.gen.None? && s.chain == Zeros(32) && s.block == Zeros(64) && s.blockN == 0)
  }

  // ---- inside a call ----

  /** Harvesting touches only the sample counters and the health tests. */
  lemma HarvestKeeps(w: World, c: Config, s: State, n: nat)
    requires ValidConfig(c) && s.running
    ensures var t := Harvest(w, c, s, n).s;
      && t == s.(samples := t.samples, trace := t.trace, failures := t.failures)
      && s.samples <= t.samples <= s.samples + n
  {}

  lemma RekeyKeeps(w: World, c: Config, s: State, xs: seq<word>, os: seq<byte>, drawn: nat)
    requires ValidConfig(c) && Open(c, s, drawn)
    ensures var t := Rekey(w, s, xs, os);
      Open(c, t, drawn) && t.running == s.running && t.gen.Some? && t.since == 0
  {
    if c.mode.ModeDrbg? { AllowanceReseed(c.interval, s.seeds, s.since); }
  }

  /** A reseed keeps the budget whether it succeeds or fails, and a successful one leaves a fresh key. */
  lemma ReseedLockedKeeps(w: World, c: Config, s: State, drawn: nat)
    requires ValidConfig(c) && Open(c, s, drawn) && s.running
    ensures var r := ReseedLocked(w, c, s);
      && Open(c, r.s, drawn) && r.s.running && (s.gen.Some? ==> r.s.gen.Some?)
      && (r.out.Ok? ==> r.s.gen.Some? && r.s.since == 0)
  {
    HarvestKeeps(w, c, s, c.seedSamples);
    var r := Harvest(w, c, s, c.seedSamples);
    if r.out.Ok? {
      if !c.mixOS {
        RekeyKeeps(w, c, r.s, r.out.value, [], drawn);
      } else if w.osRandom(r.s.osReads).Some? {
        RekeyKeeps(w, c, r.s.(osReads := r.s.osReads + 1), r.out.value, w.osRandom(r.s.osReads).value, drawn);
      }
    }
  }

  /** Outside withWorkers: the workers are up exactly on a persistent Reader whose source has not failed. */
  ghost predicate Settled(c: Config, s: State, failed: bool) {
    s.running <==> c.persistent && !failed
  }

  lemma EnterKeeps(w: World, c: Config, s: State, drawn: nat)
    requires Open(c, s, drawn) && Settled(c, s, false)
    ensures var (t, ok) := EnterWorkers(w, c, s);
      && Open(c, t, drawn) && t == s.(running := t.running, looks := t.looks)
      && (if ok then t.running else Settled(c, t, true))
  {}

  lemma ReseedKeeps(w: World, c: Config, s: State, drawn: nat)
    requires ValidConfig(c) && Open(c, s, drawn) && Settled(c, s, false)
    ensures var r := Reseed(w, c, s);
      && Open(c, r.s, drawn) && Settled(c, r.s, r.out.Fail?) && (s.gen.Some? ==> r.s.gen.Some?)
      && (r.out.Ok? ==> r.s.gen.Some? && r.s.since == 0)
  {
    EnterKeeps(w, c, s, drawn);
    var (s1, ok) := EnterWorkers(w, c, s);
    if ok { ReseedLockedKeeps(w, c, s1, drawn); }
  }

  lemma DrawCounts(s: State, n: nat)
    requires s.gen.Some? && Drawn(s.gen.value.asked) == s.since
    ensures Drawn(Draw(s, n).gen.value.asked) == Draw(s, n).since
  {
    DrawnMore(s.gen.value.asked, ReadRequest(n));
  }

  lemma DrawAllowed(c: Config, s: State, n: nat, drawn: nat)
    requires Budget(c, s, drawn) && s.gen.Some?
    ensures s.bytes + drawn + n <= Allowance(c.interval, s.seeds, Draw(s, n).since)
  {
    AllowanceDraw(c.interval, s.seeds, s.since, n);
  }

  lemma DrawWiped(c: Config, s: State, n: nat)
    requires Wiped(s) && s.gen.Some?
    ensures Wiped(Draw(s, n))
  {}

  lemma DrawKeeps(c: Config, s: State, n: nat, drawn: nat)
    requires Open(c, s, drawn) && s.gen.Some? && c.mode.ModeDrbg? && s.since + n <= c.interval
    ensures Open(c, Draw(s, n), drawn + n)
  {
    DrawCounts(s, n);
    DrawAllowed(c, s, n, drawn);
    DrawWiped(c, s, n);
  }

  lemma RefreshKeeps(w: World, c: Config, s: State, drawn: nat)
    requires ValidConfig(c) && Open(c, s, drawn) && Settled(c, s, false) && s.gen.Some?
    ensures var r := Refresh(w, c, s);
      && Open(c, r.s, drawn) && Settled(c, r.s, r.out.Fail?) && r.s.gen.Some?
  {
    if s.since >= c.interval { ReseedKeeps(w, c, s, drawn); }
  }

  /** While a ModeDRBG read is served, d bytes of it so far. */
  ghost predicate Drawing(c: Config, s: State, d: nat) {
    c.mode.ModeDrbg? && Open(c, s, d) && Settled(c, s, false) && s.gen.Some?
  }

  /** A failed source: open still, but with the workers down. */
  ghost predicate Broken(c: Config, s: State) {
    Usable(c, s) && Settled(c, s, true) && exists d :: Open(c, s, d)
  }

  lemma RefreshDrawing(w: World, c: Config, s: State, d: nat)
    requires ValidConfig(c) && Drawing(c, s, d)
    ensures var r := Refresh(w, c, s); if r.out.Ok? then Drawing(c, r.s, d) else Broken(c, r.s)
  {
    RefreshKeeps(w, c, s, d);
  }

  ghost function DrawingIn(c: Config): (State, nat) -> bool {
    (s: State, d: nat) => Drawing(c, s, d)
  }

  ghost function BrokenIn(c: Config): State -> bool {
    (s: State) => Broken(c, s)
  }

  lemma DrbgSupplyKeeps(w: World, c: Config)
    requires ValidConfig(c)
    ensures Keeps(DrbgSupply(w, c), DrawingIn(c), BrokenIn(c))
  {
    var p, inv, bad := DrbgSupply(w, c), DrawingIn(c), BrokenIn(c);
    forall s, d | p.ok(s) && inv(s, d) ensures ReadyKeeps(p, inv, bad, s, d) { RefreshDrawing(w, c, s, d); }
    forall s, d, k: nat | p.ok(s) && inv(s, d) && k <= p.room(s) ensures GiveKeeps(p, inv, s, d, k) {
      DrawKeeps(c, s, k, d);
    }
  }

  lemma ReadDrbgKeeps(w: World, c: Config, s: State, n: nat)
    requires ValidConfig(c) && Drawing(c, s, 0) && s.since <= c.interval
    ensures var r := ReadDrbg(w, c, s, n); if r.out.Ok? then Drawing(c, r.s, n) else Broken(c, r.s)
  {
    var p, inv, bad := DrbgSupply(w, c), DrawingIn(c), BrokenIn(c);
    DrbgSupplyWorks(w, c);
    DrbgSupplyKeeps(w, c);
    ChunksKeep(p, inv, bad, s, 0, n);
  }

  // ---- the other modes ----

  lemma RefillKeeps(w: World, c: Config, s: State)
    requires ValidConfig(c) && !c.mode.ModeDrbg? && Open(c, s, 0) && s.running
    ensures var r := Refill(w, c, s); Open(c, r.s, 0) && r.s.running
  {
    HarvestKeeps(w, c, s, c.blockSamples);
    assert forall d: Digest :: d[..0] == Zeros(0);
  }

  lemma ConsumeKeeps(c: Config, s: State, k: nat)
    requires !c.mode.ModeDrbg? && Open(c, s, 0) && k <= s.blockN
    ensures Open(c, Consume(s, k), 0)
  {
    var t := Consume(s, k);
    assert t.block[..64 - t.blockN] == s.block[..64 - s.blockN] + Zeros(k);
  }

  /** Up inside withWorkers, in a mode without a generator. */
  ghost predicate Serving(c: Config, s: State) {
    !c.mode.ModeDrbg? && Open(c, s, 0) && s.running
  }

  lemma ConsumeServes(c: Config, s: State, k: nat)
    requires Serving(c, s) && k <= s.blockN
    ensures Serving(c, Consume(s, k))
  {
    ConsumeKeeps(c, s, k);
  }

  ghost function ServingIn(c: Config): (State, nat) -> bool {
    (s: State, d: nat) => Serving(c, s)
  }

  lemma TrngSupplyKeeps(w: World, c: Config)
    requires ValidConfig(c)
    ensures Keeps(TrngSupply(w, c), ServingIn(c), (s: State) => Serving(c, s))
  {
    var p, inv, bad := TrngSupply(w, c), ServingIn(c), (s: State) => Serving(c, s);
    forall s, d | p.ok(s) && inv(s, d) ensures ReadyKeeps(p, inv, bad, s, d) { RefillKeeps(w, c, s); }
    forall s, d, k: nat | p.ok(s) && inv(s, d) && k <= p.room(s) ensures GiveKeeps(p, inv, s, d, k) {
      ConsumeServes(c, s, k);
    }
  }

  lemma ReadTrngKeeps(w: World, c: Config, s: State, n: nat)
    requires ValidConfig(c) && Serving(c, s)
    ensures Serving(c, ReadTrng(w, c, s, n).s)
  {
    var p, inv, bad := TrngSupply(w, c), ServingIn(c), (s: State) => Serving(c, s);
    TrngSupplyWorks(w, c);
    TrngSupplyKeeps(w, c);
    ChunksKeep(p, inv, bad, s, 0, n);
  }

  /** After a read in any mode, before its outcome is recorded. */
  ghost predicate Served(c: Config, s: State, n: nat, failed: bool) {
    && Usable(c, s) && Settled(c, s, failed)
    && if failed then exists d :: Open(c, s, d) else Open(c, s, n)
  }

  lemma ReadByModeKeeps(w: World, c: Config, s: State, n: nat)
    requires ValidConfig(c) && Open(c, s, 0) && Settled(c, s, false) && Usable(c, s)
    ensures var r := ReadByMode(w, c, s, n); Served(c, r.s, n, r.out.Fail?)
  {
    if c.mode.ModeDrbg? {
      ReadDrbgKeeps(w, c, s, n);
    } else {
      EnterKeeps(w, c, s, 0);
      var (s1, ok) := EnterWorkers(w, c, s);
      if ok {
        if c.mode.ModeTrng? {
          ReadTrngKeeps(w, c, s1, n);
        } else {
          HarvestKeeps(w, c, s1, n);
        }
      }
      var r := ReadByMode(w, c, s, n);
      assert Open(c, r.s, 0);
    }
  }

  // ---- every public call keeps the invariant ----

  lemma ReadKeeps(w: World, c: Config, s: State, n: nat)
    requires ValidConfig(c) && Between(c, s)
    ensures Between(c, Read(w, c, s, n).s)
  {
    if !s.closed && s.err.None? && n > 0 {
      ReadByModeKeeps(w, c, s, n);
    }
  }

  lemma DrawWordCounts(s: State)
    requires s.gen.Some? && Drawn(s.gen.value.asked) == s.since
    ensures Drawn(DrawWord(s).gen.value.asked) == DrawWord(s).since
  {
    DrawnMore(s.gen.value.asked, WordRequest);
  }

  lemma DrawWordAllowed(c: Config, s: State)
    requires Budget(c, s, 0) && s.gen.Some?
    ensures DrawWord(s).bytes <= Allowance(c.interval, s.seeds, DrawWord(s).since)
  {
    AllowanceDraw(c.interval, s.seeds, s.since, 8);
  }

  lemma DrawWordKeeps(c: Config, s: State)
    requires Open(c, s, 0) && s.gen.Some? && c.mode.ModeDrbg? && s.since + 8 <= c.interval
    ensures Open(c, DrawWord(s), 0)
  {
    DrawWordCounts(s);
    DrawWordAllowed(c, s);
  }

  lemma RefreshForWordKeeps(w: World, c: Config, s: State)
    requires ValidConfig(c) && Open(c, s, 0) && Settled(c, s, false) && s.gen.Some? && c.interval >= 8
    ensures var r := RefreshForWord(w, c, s);
      && Open(c, r.s, 0) && Settled(c, r.s, r.out.Fail?) && r.s.gen.Some?
  {
    if s.since > c.interval - 8 { ReseedKeeps(w, c, s, 0); }
  }

  lemma Uint64Keeps(w: World, c: Config, s: State)
    requires ValidConfig(c) && Between(c, s)
    ensures Between(c, Uint64(w, c, s).s)
  {
    if c.mode.ModeDrbg? && s.err.None? && !s.closed && c.interval >= 8 {
      RefreshForWordKeeps(w, c, s);
      var r := RefreshForWord(w, c, s);
      if r.out.Ok? { DrawWordKeeps(c, r.s); }
    } else {
      ReadKeeps(w, c, s, 8);
    }
  }

  lemma StartupKeeps(w: World, c: Config, s: State)
    requires ValidConfig(c) && s.running
    ensures var t := StartupTests(w, c, s).s;
      t == s.(samples := t.samples, trace := t.trace, failures := t.failures)
  {}

  lemma StartLockedKeeps(w: World, c: Config, s: State)
    requires ValidConfig(c) && Open(c, s, 0) && s.running
    ensures var r := StartLocked(w, c, s);
      && Open(c, r.s, 0) && r.s.running && (s.gen.Some? ==> r.s.gen.Some?)
      && (r.out.Ok? && c.mode.ModeDrbg? ==> r.s.gen.Some?)
  {
    StartupKeeps(w, c, s);
    var r := StartupTests(w, c, s);
    if r.out.Ok? && c.mode.ModeDrbg? { ReseedLockedKeeps(w, c, r.s, 0); }
  }

  lemma StartKeeps(w: World, c: Config, s: State)
    requires ValidConfig(c) && Open(c, s, 0) && Settled(c, s, false)
    ensures var r := Start(w, c, s);
      && Open(c, r.s, 0) && Settled(c, r.s, r.out.Fail?) && (s.gen.Some? ==> r.s.gen.Some?)
      && (r.out.Ok? && c.mode.ModeDrbg? ==> r.s.gen.Some?)
  {
    EnterKeeps(w, c, s, 0);
    var (s1, ok) := EnterWorkers(w, c, s);
    if ok { StartLockedKeeps(w, c, s1); }
  }

  lemma ForceReseedKeeps(w: World, c: Config, s: State)
    requires ValidConfig(c) && Between(c, s)
    ensures Between(c, ForceReseed(w, c, s).s)
  {
    if !s.closed && s.err.None? && c.mode.ModeDrbg? { ReseedKeeps(w, c, s, 0); }
  }

  lemma ResetKeeps(w: World, c: Config, s: State)
    requires ValidConfig(c) && Between(c, s)
    ensures Between(c, Reset(w, c, s).s)
  {
    if !s.closed {
      var s1 := s.(err := None, blockN := 0, block := Zeros(64), trace := [], running := s.running || c.persistent);
      assert Zeros(64)[..64] == Zeros(64);
      StartKeeps(w, c, s1);
    }
  }

  lemma CloseKeeps(c: Config, s: State)
    requires Between(c, s)
    ensures Between(c, Close(s))
  {
    assert Zeros(64)[..64] == Zeros(64);
  }

  lemma CallKeeps(w: World, c: Config, s: State, call: Call)
    requires ValidConfig(c) && Between(c, s)
    ensures Between(c, After(w, c, s, call))
  {
    match call
    case DoRead(n) => ReadKeeps(w, c, s, n);
    case DoUint64 => Uint64Keeps(w, c, s);
    case DoReseed => ForceReseedKeeps(w, c, s);
    case DoReset => ResetKeeps(w, c, s);
    case DoClose => CloseKeeps(c, s);
  }

  lemma NewKeeps(w: World, c: Config)
    requires ValidConfig(c) && New(w, c).out.Ok?
    ensures Between(c, New(w, c).s)
  {
    assert Zeros(64)[..64] == Zeros(64);
    StartKeeps(w, c, Fresh(c));
  }
}
