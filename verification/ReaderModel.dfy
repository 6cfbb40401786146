/** What each operation of reader.go does to the Reader, as functions on values: the specification
    that the class in Reader.dfy is proved against. The raw samples, GOMAXPROCS, crypto/rand, SHA-512,
    the startup estimate and the generator are parameters. */
module ReaderModel {
  import opened Common
  import opened Bytes
  import opened HealthTests
  import opened Chunked
  import Sampling

  datatype Mode = ModeDrbg | ModeTrng | ModeRaw

  datatype Error =
    | Closed
    | NotEnoughProcs
    | InsufficientEntropy
    | HealthFailure(verdict: Verdict)
    | OsRandomFailure

  /** A deterministic generator: its key and everything it has been asked since it was keyed. */
  datatype Request = ReadRequest(n: nat) | WordRequest
  datatype Generator = Generator(key: seq<byte>, asked: seq<Request>)

  /** Everything outside the Reader, as it will be observed: the i-th raw sample, the i-th look at
      GOMAXPROCS, the i-th 32 bytes of crypto/rand; the hash and the estimator; and the generator's
      answers, as functions of its key and its history. */
  datatype World = World(
    sample: nat -> word,
    procs: nat -> nat,
    osRandom: nat -> Option<seq<byte>>,
    sha512: seq<byte> -> Digest,
    estimate: seq<word> -> real,
    readByte: (Generator, nat, nat) -> byte,  // byte i of the answer to a request for n bytes
    nextWord: Generator -> word)

  datatype Config = Config(
    mode: Mode, minEntropy: real, interval: nat, startupSamples: nat, seedSamples: nat, blockSamples: nat,
    persistent: bool, mixOS: bool, skipHealth: bool,
    judge: seq<word> -> Verdict)  // the health tests' verdict on the samples since their last reset

  const MAX_INT: int := 0x7FFF_FFFF_FFFF_FFFF

  /** What validate accepts, and what samplesFor makes of it. */
  predicate ValidConfig(c: Config) {
    && 1 <= c.interval <= MAX_INT
    && 1024 <= c.startupSamples <= 1048576
    && c.seedSamples >= 1 && c.blockSamples >= 1
  }

  const SEED_DOMAIN: seq<byte> :=
    [114, 97, 99, 101, 114, 97, 110, 100, 47, 118, 49, 47, 115, 101, 101, 100, 0]
  const TRNG_DOMAIN: seq<byte> :=
    [114, 97, 99, 101, 114, 97, 110, 100, 47, 118, 49, 47, 116, 114, 110, 103, 0]

  function Zeros(n: nat): (r: seq<byte>)
    ensures |r| == n
  {
    seq<byte>(n, _ => 0)
  }

  /** The Reader between two steps. The raw buffer is not part of it: it is zero between calls. */
  datatype State = State(
    err: Option<Error>, closed: bool,
    running: bool,             // the harvester's workers
    trace: seq<word>,          // samples the health tests have passed since their last reset
    gen: Option<Generator>, chain: seq<byte>,
    block: seq<byte>, blockN: nat, since: nat,
    samples: nat, seeds: nat, bytes: nat, failures: nat,
    looks: nat,                // looks at GOMAXPROCS so far
    osReads: nat,              // reads of crypto/rand so far
    idle: nat)                 // samples taken while the workers were not running

  type Result<+T> = Step<State, T, Error>

  // ---- workers ----

  /** withWorkers before its function runs: whether it runs at all. */
  function EnterWorkers(w: World, c: Config, s: State): (State, bool) {
    var s1 := s.(looks := s.looks + 1);
    if w.procs(s.looks) < 2 then (if c.persistent then s1.(running := false) else s1, false)
    else (if c.persistent then s1 else s1.(running := s.running || !s.closed), true)
  }

  /** withWorkers after its function has run. */
  function LeaveWorkers(c: Config, s: State, failed: bool): State {
    if !c.persistent || failed then s.(running := false) else s
  }

  // ---- harvesting ----

  function Words(w: World, from: nat, n: nat): (r: seq<word>)
    ensures |r| == n
  {
    seq<word>(n, i requires 0 <= i < n => w.sample(from + i))
  }

  lemma WordAt(w: World, from: nat, n: nat, i: nat)
    requires i < n
    ensures Words(w, from, n)[i] == w.sample(from + i)
  {}

  function TakeSamples(s: State, n: nat): State {
    s.(samples := s.samples + n, idle := s.idle + if s.running then 0 else n)
  }

  /** n samples, each through the health tests: all of them, or the failure of the first that fails. */
  function Harvest(w: World, c: Config, s: State, n: nat): (r: Result<seq<word>>)
    requires ValidConfig(c)
    ensures r.out.Ok? ==> r.out.value == Words(w, s.samples, n)
  {
    var xs := Words(w, s.samples, n);
    if c.skipHealth then Step(TakeSamples(s, n), Ok(xs))
    else
      var k := FirstFailure(c.judge, s.trace, xs);
      if k == n then Step(TakeSamples(s, n).(trace := s.trace + xs), Ok(xs))
      else Step(TakeSamples(s, k + 1).(trace := [], failures := s.failures + 1),
                  Fail(HealthFailure(c.judge(s.trace + xs[..k + 1]))))
  }

  /** Hash the chain and fresh samples, and system randomness if so configured, into a new key and a
      new chain. */
  function ReseedLocked(w: World, c: Config, s: State): Result<()>
    requires ValidConfig(c)
  {
    var r := Harvest(w, c, s, c.seedSamples);
    if r.out.Fail? then Step(r.s, Fail(r.out.error))
    else if !c.mixOS then Step(Rekey(w, r.s, r.out.value, []), Ok(()))
    else
      var s1 := r.s.(osReads := r.s.osReads + 1);
      match w.osRandom(r.s.osReads)
      case None => Step(s1, Fail(OsRandomFailure))
      case Some(os) => Step(Rekey(w, s1, r.out.value, os), Ok(()))
  }

  function SeedInput(chain: seq<byte>, xs: seq<word>, os: seq<byte>): seq<byte> {
    SEED_DOMAIN + chain + WordsBytes(xs) + os
  }

  function Rekey(w: World, s: State, xs: seq<word>, os: seq<byte>): State {
    var d := w.sha512(SeedInput(s.chain, xs, os));
    s.(gen := Some(Generator(d[..32], [])), chain := d[32..], since := 0, seeds := s.seeds + 1)
  }

  function Reseed(w: World, c: Config, s: State): Result<()>
    requires ValidConfig(c)
  {
    var (s1, ok) := EnterWorkers(w, c, s);
    if !ok then Step(s1, Fail(NotEnoughProcs))
    else
      var r := ReseedLocked(w, c, s1);
      Step(LeaveWorkers(c, r.s, r.out.Fail?), r.out)
  }

  /** The startup tests take all their samples before looking at any. */
  function StartupTests(w: World, c: Config, s: State): Result<()>
    requires ValidConfig(c)
  {
    var n := c.startupSamples;
    var xs := Words(w, s.samples, n);
    var s1 := TakeSamples(s, n);
    if c.skipHealth then Step(s1, Ok(()))
    else if w.estimate(xs) < c.minEntropy then Step(s1, Fail(InsufficientEntropy))
    else
      var k := FirstFailure(c.judge, s.trace, xs);
      if k == n then Step(s1.(trace := s.trace + xs), Ok(()))
      else Step(s1.(trace := [], failures := s.failures + 1),
                  Fail(HealthFailure(c.judge(s.trace + xs[..k + 1]))))
  }

  function StartLocked(w: World, c: Config, s: State): Result<()>
    requires ValidConfig(c)
  {
    var r := StartupTests(w, c, s);
    if r.out.Fail? || !c.mode.ModeDrbg? then r else ReseedLocked(w, c, r.s)
  }

  function Start(w: World, c: Config, s: State): Result<()>
    requires ValidConfig(c)
  {
    var (s1, ok) := EnterWorkers(w, c, s);
    if !ok then Step(s1, Fail(NotEnoughProcs))
    else
      var r := StartLocked(w, c, s1);
      Step(LeaveWorkers(c, r.s, r.out.Fail?), r.out)
  }

  // ---- reading ----

  function Answer(w: World, g: Generator, n: nat): (r: seq<byte>)
    ensures |r| == n
  {
    seq<byte>(n, i requires 0 <= i < n => w.readByte(g, n, i))
  }

  /** One chunk of a ModeDRBG read: n bytes within the reseed interval. */
  function Draw(s: State, n: nat): State
    requires s.gen.Some?
  {
    var g := s.gen.value;
    s.(gen := Some(g.(asked := g.asked + [ReadRequest(n)])), since := s.since + n)
  }

  /** A new seed if the interval is used up. */
  function Refresh(w: World, c: Config, s: State): (r: Result<()>)
    requires ValidConfig(c) && s.gen.Some?
    ensures r.out.Ok? ==> r.s.gen.Some? && r.s.since < c.interval
  {
    if s.since >= c.interval then Reseed(w, c, s) else Step(s, Ok(()))
  }

  /** How ModeDRBG serves a read: a chunk is at most what is left of the interval. */
  function DrbgSupply(w: World, c: Config): Supply<State, Error>
    requires ValidConfig(c)
  {
    Supply((s: State) => s.gen.Some? && s.since <= c.interval,
           (s: State) requires s.gen.Some? => Refresh(w, c, s),
           (s: State) => if s.since <= c.interval then c.interval - s.since else 0,
           (s: State, k: nat) requires s.gen.Some? => (Answer(w, s.gen.value, k), Draw(s, k)))
  }

  lemma DrbgSupplyWorks(w: World, c: Config)
    requires ValidConfig(c)
    ensures Works(DrbgSupply(w, c))
  {}

  lemma DrbgNothing(w: World, c: Config, s: State)
    requires ValidConfig(c) && s.gen.Some? && s.since <= c.interval
    ensures ReadDrbg(w, c, s, 0) == Step(s, Ok([]))
  {}

  /** What serving the next chunk of n bytes comes to. */
  lemma DrbgChunk(w: World, c: Config, s: State, n: nat)
    requires ValidConfig(c) && s.gen.Some? && s.since <= c.interval && n > 0
    ensures var r := Refresh(w, c, s);
      match r.out
      case Fail(e) => ReadDrbg(w, c, s, n) == Step(r.s, Fail(e))
      case Ok(_) =>
        var k := Min(n, c.interval - r.s.since);
        && 0 < k && ReadDrbg(w, c, s, n) == Prepend(Answer(w, r.s.gen.value, k), ReadDrbg(w, c, Draw(r.s, k), n - k))
  {
    hide Refresh;
    DrbgSupplyWorks(w, c);
    ChunksUnfold(DrbgSupply(w, c), s, n);
  }

  /** Chunk by chunk, reseeding whenever the interval is used up. */
  ghost function ReadDrbg(w: World, c: Config, s: State, n: nat): (r: Result<seq<byte>>)
    requires ValidConfig(c) && s.gen.Some? && s.since <= c.interval
    ensures r.out.Ok? ==> |r.out.value| == n && r.s.gen.Some? && r.s.since <= c.interval
  {
    DrbgSupplyWorks(w, c);
    Chunks(DrbgSupply(w, c), s, n)
  }

  function FillBlock(w: World, c: Config, s: State): Result<()>
    requires ValidConfig(c)
  {
    var r := Harvest(w, c, s, c.blockSamples);
    match r.out
    case Fail(e) => Step(r.s, Fail(e))
    case Ok(xs) => Step(r.s.(block := w.sha512(TRNG_DOMAIN + WordsBytes(xs)), blockN := 64), Ok(()))
  }

  /** Hands out k bytes of the block and wipes them from it. */
  function Consume(s: State, k: nat): State
    requires |s.block| == 64 && k <= s.blockN <= 64
  {
    s.(block := s.block[..64 - s.blockN] + Zeros(k) + s.block[64 - s.blockN + k..], blockN := s.blockN - k)
  }

  function Refill(w: World, c: Config, s: State): (r: Result<()>)
    requires ValidConfig(c) && |s.block| == 64 && s.blockN <= 64
    ensures r.out.Ok? ==> |r.s.block| == 64 && 0 < r.s.blockN <= 64
  {
    if s.blockN == 0 then FillBlock(w, c, s) else Step(s, Ok(()))
  }

  /** How ModeTRNG serves a read: digest by digest, each wiped from the block as it is handed out. */
  function TrngSupply(w: World, c: Config): Supply<State, Error>
    requires ValidConfig(c)
  {
    Supply((s: State) => |s.block| == 64 && s.blockN <= 64,
           (s: State) requires |s.block| == 64 && s.blockN <= 64 => Refill(w, c, s),
           (s: State) => s.blockN,
           (s: State, k: nat) requires |s.block| == 64 && k <= s.blockN <= 64 =>
             (s.block[64 - s.blockN..64 - s.blockN + k], Consume(s, k)))
  }

  lemma TrngReadies(w: World, c: Config, s: State)
    requires ValidConfig(c) && TrngSupply(w, c).ok(s)
    ensures Readies(TrngSupply(w, c), s)
  {}

  lemma TrngGives(w: World, c: Config, s: State, k: nat)
    requires ValidConfig(c) && TrngSupply(w, c).ok(s) && k <= TrngSupply(w, c).room(s)
    ensures Gives(TrngSupply(w, c), s, k)
  {}

  lemma TrngSupplyWorks(w: World, c: Config)
    requires ValidConfig(c)
    ensures Works(TrngSupply(w, c))
  {
    var p := TrngSupply(w, c);
    forall s | p.ok(s) ensures Readies(p, s) { TrngReadies(w, c, s); }
    forall s, k: nat | p.ok(s) && k <= p.room(s) ensures Gives(p, s, k) { TrngGives(w, c, s, k); }
  }

  lemma TrngNothing(w: World, c: Config, s: State)
    requires ValidConfig(c) && |s.block| == 64 && s.blockN <= 64
    ensures ReadTrng(w, c, s, 0) == Step(s, Ok([]))
  {}

  /** What serving the next chunk of n bytes comes to. */
  lemma TrngChunk(w: World, c: Config, s: State, n: nat)
    requires ValidConfig(c) && |s.block| == 64 && s.blockN <= 64 && n > 0
    ensures var r := Refill(w, c, s);
      match r.out
      case Fail(e) => ReadTrng(w, c, s, n) == Step(r.s, Fail(e))
      case Ok(_) =>
        var k := Min(n, r.s.blockN);
        && 0 < k
        && ReadTrng(w, c, s, n) ==
           Prepend(r.s.block[64 - r.s.blockN..64 - r.s.blockN + k], ReadTrng(w, c, Consume(r.s, k), n - k))
  {
    hide FillBlock, Refill, Consume;
    TrngSupplyWorks(w, c);
    ChunksUnfold(TrngSupply(w, c), s, n);
  }

  ghost function ReadTrng(w: World, c: Config, s: State, n: nat): (r: Result<seq<byte>>)
    requires ValidConfig(c) && |s.block| == 64 && s.blockN <= 64
    ensures r.out.Ok? ==> |r.out.value| == n
  {
    TrngSupplyWorks(w, c);
    Chunks(TrngSupply(w, c), s, n)
  }

  /** One folded byte per sample. */
  function ReadRaw(w: World, c: Config, s: State, n: nat): (r: Result<seq<byte>>)
    requires ValidConfig(c)
    ensures r.out.Ok? ==> |r.out.value| == n
  {
    var r := Harvest(w, c, s, n);
    match r.out
    case Fail(e) => Step(r.s, Fail(e))
    case Ok(xs) => Step(r.s, Ok(Folded(xs)))
  }

  function Folded(xs: seq<word>): (r: seq<byte>)
    ensures |r| == |xs|
  {
    seq<byte>(|xs|, i requires 0 <= i < |xs| => Sampling.FoldWord(xs[i]))
  }

  lemma FoldedAt(xs: seq<word>, i: nat)
    requires i < |xs|
    ensures Folded(xs)[i] == Sampling.FoldWord(xs[i])
  {}

  /** What the operations need of the Reader: a whole block buffer and, in ModeDRBG, a generator within
      its interval. */
  predicate Usable(c: Config, s: State) {
    && |s.block| == 64 && s.blockN <= 64
    && (c.mode.ModeDrbg? && !s.closed ==> s.gen.Some? && s.since <= c.interval)
  }

  ghost function ReadByMode(w: World, c: Config, s: State, n: nat): (r: Result<seq<byte>>)
    requires ValidConfig(c) && Usable(c, s) && !s.closed
    ensures r.out.Ok? ==> |r.out.value| == n
  {
    if c.mode.ModeDrbg? then ReadDrbg(w, c, s, n)
    else
      var (s1, ok) := EnterWorkers(w, c, s);
      if !ok then Step(s1, Fail(NotEnoughProcs))
      else
        var r := if c.mode.ModeTrng? then ReadTrng(w, c, s1, n) else ReadRaw(w, c, s1, n);
        Step(LeaveWorkers(c, r.s, r.out.Fail?), r.out)
  }

  /** All n bytes, or an error that sticks. */
  ghost function Read(w: World, c: Config, s: State, n: nat): (r: Result<seq<byte>>)
    requires ValidConfig(c) && Usable(c, s)
    ensures r.out.Ok? ==> |r.out.value| == n
  {
    if s.closed then Step(s, Fail(Closed))
    else if s.err.Some? then Step(s, Fail(s.err.value))
    else if n == 0 then Step(s, Ok([]))
    else
      var r := ReadByMode(w, c, s, n);
      match r.out
      case Fail(e) => Step(r.s.(err := Some(e)), r.out)
      case Ok(_) => Step(r.s.(bytes := r.s.bytes + n), r.out)
  }

  /** A new seed unless a whole word is left of the interval. */
  function RefreshForWord(w: World, c: Config, s: State): (r: Result<()>)
    requires ValidConfig(c) && s.gen.Some? && c.interval >= 8
    ensures r.out.Ok? ==> r.s.gen.Some? && r.s.since <= c.interval - 8
  {
    if s.since > c.interval - 8 then Reseed(w, c, s) else Step(s, Ok(()))
  }

  function DrawWord(s: State): State
    requires s.gen.Some?
  {
    var g := s.gen.value;
    s.(since := s.since + 8, bytes := s.bytes + 8, gen := Some(g.(asked := g.asked + [WordRequest])))
  }

  /** A word; the failure is the panic. Whole words within an interval come from the generator's own
      word output. */
  ghost function Uint64(w: World, c: Config, s: State): Result<word>
    requires ValidConfig(c) && Usable(c, s)
  {
    if c.mode.ModeDrbg? && s.err.None? && !s.closed && c.interval >= 8 then
      var r := RefreshForWord(w, c, s);
      match r.out
      case Fail(e) => Step(r.s.(err := Some(e)), Fail(e))
      case Ok(_) => Step(DrawWord(r.s), Ok(w.nextWord(r.s.gen.value)))
    else
      var r := Read(w, c, s, 8);
      match r.out
      case Fail(e) => Step(r.s, Fail(e))
      case Ok(b) => Step(r.s, Ok(WordOf(b)))
  }

  // ---- lifecycle ----

  function ForceReseed(w: World, c: Config, s: State): Result<()>
    requires ValidConfig(c)
  {
    if s.closed then Step(s, Fail(Closed))
    else if s.err.Some? then Step(s, Fail(s.err.value))
    else if !c.mode.ModeDrbg? then Step(s, Ok(()))
    else
      var r := Reseed(w, c, s);
      if r.out.Fail? then Step(r.s.(err := Some(r.out.error)), r.out) else r
  }

  function Reset(w: World, c: Config, s: State): Result<()>
    requires ValidConfig(c)
  {
    if s.closed then Step(s, Fail(Closed))
    else
      var s1 := s.(err := None, blockN := 0, block := Zeros(64), trace := [],
                   running := s.running || c.persistent);
      var r := Start(w, c, s1);
      if r.out.Fail? then Step(r.s.(err := Some(r.out.error)), r.out) else r
  }

  function Close(s: State): State {
    if s.closed then s
    else s.(closed := true, running := false, gen := None, chain := Zeros(32), block := Zeros(64), blockN := 0)
  }

  /** New up to the startup tests, after its own look at GOMAXPROCS. */
  function Fresh(c: Config): State {
    State(None, false, c.persistent, [], None, Zeros(32), Zeros(64), 0, 0, 0, 0, 0, 0, 1, 0, 0)
  }

  function New(w: World, c: Config): Result<()>
    requires ValidConfig(c)
  {
    if w.procs(0) < 2 then Step(Fresh(c).(running := false), Fail(NotEnoughProcs)) else Start(w, c, Fresh(c))
  }
}
