/** The bytes a Reader returns, as one stream that does not depend on how it is read: in ModeDRBG
    interval bytes from each key of the hash chain in turn, in ModeTRNG one digest after another. */
module ReaderStreams {
  import opened Common
  import opened Bytes
  import opened HealthTests
  import opened Chunked
  import opened ReaderModel
  import opened ReaderInvariants

  // ---- the chain of seeds ----

  /** The first sample of seed number k + 1. */
  function SeedStart(c: Config, k: nat): nat {
    if k == 0 then c.startupSamples else SeedStart(c, k - 1) + c.seedSamples
  }

  /** The system randomness that goes into seed number k + 1. */
  function OsPart(w: World, c: Config, k: nat): seq<byte> {
    if c.mixOS && w.osRandom(k).Some? then w.osRandom(k).value else []
  }

  /** The digest of seed number k: of the chain so far, the k-th batch of samples and the system
      randomness. */
  function SeedDigest(w: World, c: Config, k: nat): Digest
    requires k >= 1
    decreases k, 0
  {
    w.sha512(SeedInput(ChainAt(w, c, k - 1), Words(w, SeedStart(c, k - 1), c.seedSamples), OsPart(w, c, k - 1)))
  }

  /** The chaining value after k seeds: the second half of the digest. */
  function ChainAt(w: World, c: Config, k: nat): seq<byte>
    decreases k, 1
  {
    if k == 0 then Zeros(32) else SeedDigest(w, c, k)[32..]
  }

  /** Key number k: the first half. */
  function KeyAt(w: World, c: Config, k: nat): seq<byte>
    requires k >= 1
  {
    SeedDigest(w, c, k)[..32]
  }

  // ---- generators that can be read in pieces ----

  type Keystream = (seq<byte>, nat) -> byte

  ghost predicate OnlyReads(asked: seq<Request>) {
    forall i :: 0 <= i < |asked| ==> asked[i].ReadRequest?
  }

  /** Reads deliver a keystream in order: n bytes and then m bytes are n + m bytes. */
  ghost predicate Splittable(w: World, ks: Keystream) {
    forall g: Generator, n: nat, i: nat :: OnlyReads(g.asked) && i < n ==>
      w.readByte(g, n, i) == ks(g.key, Drawn(g.asked) + i)
  }

  // ---- the ModeDRBG stream ----

  /** Byte t: byte t mod interval of the generator keyed by key number t div interval + 1. */
  function StreamByte(w: World, c: Config, ks: Keystream, t: nat): byte
    requires c.interval >= 1
  {
    ks(KeyAt(w, c, t / c.interval + 1), t % c.interval)
  }

  function DrbgBytes(w: World, c: Config, ks: Keystream): nat -> byte
    requires c.interval >= 1
  {
    (t: nat) => StreamByte(w, c, ks, t)
  }

  /** The Reader has drawn exactly the first t bytes of the stream. */
  ghost predicate At(w: World, c: Config, s: State, t: nat) {
    && s.seeds >= 1 && s.since <= c.interval && t == Allowance(c.interval, s.seeds, s.since)
    && s.gen.Some? && s.gen.value.key == KeyAt(w, c, s.seeds)
    && OnlyReads(s.gen.value.asked) && Drawn(s.gen.value.asked) == s.since
    && s.chain == ChainAt(w, c, s.seeds)
    && s.samples == SeedStart(c, s.seeds)
    && (c.mixOS ==> s.osReads == s.seeds)
  }

  lemma AnswerIsStream(w: World, c: Config, ks: Keystream, s: State, t: nat, k: nat)
    requires c.interval >= 1 && Splittable(w, ks) && At(w, c, s, t) && s.since + k <= c.interval
    ensures Answer(w, s.gen.value, k) == Piece(DrbgBytes(w, c, ks), t, k)
  {
    var a, b := Answer(w, s.gen.value, k), Piece(DrbgBytes(w, c, ks), t, k);
    AllowanceFormula(c.interval, s.seeds, s.since);
    forall i | 0 <= i < k ensures a[i] == b[i] {
      ModIs(t + i, c.interval, s.seeds - 1, s.since + i);
      assert b[i] == StreamByte(w, c, ks, t + i);
      assert a[i] == w.readByte(s.gen.value, k, i);
    }
  }

  lemma DrawAdvances(w: World, c: Config, s: State, t: nat, k: nat)
    requires At(w, c, s, t) && s.since + k <= c.interval
    ensures At(w, c, Draw(s, k), t + k)
  {
    DrawCounts(s, k);
    AllowanceDraw(c.interval, s.seeds, s.since, k);
  }

  lemma {:induction false} AllowanceRolls(interval: nat, seeds: nat)
    requires seeds >= 1
    ensures Allowance(interval, seeds + 1, 0) == Allowance(interval, seeds, interval)
  {
    if seeds > 1 { AllowanceRolls(interval, seeds - 1); }
  }

  /** The state a successful seeding starts from: k seeds made so far. */
  ghost predicate Chained(w: World, c: Config, s: State, k: nat) {
    && s.seeds == k && s.chain == ChainAt(w, c, k) && s.samples == SeedStart(c, k)
    && (c.mixOS ==> s.osReads == k)
  }

  /** A successful seeding makes the next key and chaining value of the hash chain. */
  lemma ReseedLockedAdvances(w: World, c: Config, s: State, k: nat)
    requires ValidConfig(c) && Chained(w, c, s, k) && ReseedLocked(w, c, s).out.Ok?
    ensures var t := ReseedLocked(w, c, s).s;
      && Chained(w, c, t, k + 1) && t.since == 0
      && t.gen == Some(Generator(KeyAt(w, c, k + 1), []))
      && t.bytes == s.bytes
  {
    var h := Harvest(w, c, s, c.seedSamples);
    assert h.out.Ok? && h.out.value == Words(w, SeedStart(c, k), c.seedSamples);
    assert h.s.samples == SeedStart(c, k + 1) && h.s.osReads == s.osReads && h.s.chain == s.chain;
    assert SeedDigest(w, c, k + 1) == w.sha512(SeedInput(s.chain, h.out.value, OsPart(w, c, k)));
  }

  lemma ReseedAdvances(w: World, c: Config, s: State, t: nat)
    requires ValidConfig(c) && At(w, c, s, t) && s.since == c.interval && Reseed(w, c, s).out.Ok?
    ensures At(w, c, Reseed(w, c, s).s, t) && Reseed(w, c, s).s.bytes == s.bytes
  {
    var (s1, ok) := EnterWorkers(w, c, s);
    ReseedLockedAdvances(w, c, s1, s.seeds);
    AllowanceRolls(c.interval, s.seeds);
  }

  lemma RefreshAdvances(w: World, c: Config, s: State, t: nat)
    requires ValidConfig(c) && At(w, c, s, t) && Refresh(w, c, s).out.Ok?
    ensures At(w, c, Refresh(w, c, s).s, t) && Refresh(w, c, s).s.bytes == s.bytes
  {
    if s.since >= c.interval { ReseedAdvances(w, c, s, t); }
  }

  /** During a call that started with the given byte count. */
  ghost predicate Flowing(w: World, c: Config, bytes: nat, s: State, t: nat) {
    At(w, c, s, t) && s.bytes == bytes
  }

  ghost function DrbgFlow(w: World, c: Config, bytes: nat): (State, nat) -> bool {
    (s: State, t: nat) => Flowing(w, c, bytes, s, t)
  }

  lemma DrbgSupplyFollows(w: World, c: Config, ks: Keystream, bytes: nat)
    requires ValidConfig(c) && Splittable(w, ks)
    ensures Follows(DrbgSupply(w, c), DrbgFlow(w, c, bytes), DrbgBytes(w, c, ks))
  {
    var p, on, f := DrbgSupply(w, c), DrbgFlow(w, c, bytes), DrbgBytes(w, c, ks);
    forall s, t | p.ok(s) && on(s, t) ensures ReadyFollows(p, on, s, t) {
      if Refresh(w, c, s).out.Ok? { RefreshAdvances(w, c, s, t); }
    }
    forall s, t, k: nat | p.ok(s) && on(s, t) && k <= p.room(s) ensures GiveFollows(p, on, f, s, t, k) {
      AnswerIsStream(w, c, ks, s, t, k);
      DrawAdvances(w, c, s, t, k);
    }
  }

  lemma ReadDrbgFollows(w: World, c: Config, ks: Keystream, s: State, t: nat, n: nat)
    requires ValidConfig(c) && Splittable(w, ks) && At(w, c, s, t) && ReadDrbg(w, c, s, n).out.Ok?
    ensures var r := ReadDrbg(w, c, s, n);
      && r.out.value == Piece(DrbgBytes(w, c, ks), t, n) && At(w, c, r.s, t + n) && r.s.bytes == s.bytes
      && (n > 0 ==> r.s.since > 0)
  {
    var p, on := DrbgSupply(w, c), DrbgFlow(w, c, s.bytes);
    DrbgSupplyWorks(w, c);
    DrbgSupplyFollows(w, c, ks, s.bytes);
    ChunksFollow(p, on, DrbgBytes(w, c, ks), s, t, n);
    if n > 0 { var last, k := ChunksEndWithGive(p, s, n); }
  }

  /** Between reads: the bytes returned are exactly the bytes drawn, and a key is made only when it is
      needed. */
  ghost predicate OnStream(w: World, c: Config, s: State) {
    At(w, c, s, s.bytes) && (s.since > 0 || s.seeds == 1)
  }

  lemma ReadContinues(w: World, c: Config, ks: Keystream, s: State, n: nat)
    requires ValidConfig(c) && c.mode.ModeDrbg? && Splittable(w, ks)
    requires Usable(c, s) && OnStream(w, c, s) && Read(w, c, s, n).out.Ok?
    ensures var r := Read(w, c, s, n);
      && r.out.value == Piece(DrbgBytes(w, c, ks), s.bytes, n) && r.s.bytes == s.bytes + n && OnStream(w, c, r.s)
  {
    if n > 0 { ReadDrbgFollows(w, c, ks, s, s.bytes, n); }
  }

  lemma NewStartsStream(w: World, c: Config)
    requires ValidConfig(c) && c.mode.ModeDrbg? && New(w, c).out.Ok?
    ensures OnStream(w, c, New(w, c).s) && New(w, c).s.bytes == 0
  {
    var (s1, ok) := EnterWorkers(w, c, Fresh(c));
    var r := StartupTests(w, c, s1);
    ReseedLockedAdvances(w, c, r.s, 0);
  }

  // ---- whole runs of reads ----

  function Total(sizes: seq<nat>): nat {
    if sizes == [] then 0 else Total(sizes[..|sizes| - 1]) + sizes[|sizes| - 1]
  }

  function Concat(outs: seq<seq<byte>>): seq<byte> {
    if outs == [] then [] else Concat(outs[..|outs| - 1]) + outs[|outs| - 1]
  }

  ghost predicate ReadGives(w: World, c: Config, s: State, n: nat, out: seq<byte>, t: State)
    requires ValidConfig(c)
  {
    Usable(c, s) && Read(w, c, s, n) == Step(t, Ok(out))
  }

  /** A Reader is read len(sizes) times, each time successfully. */
  ghost predicate Reads(w: World, c: Config, sizes: seq<nat>, outs: seq<seq<byte>>, states: seq<State>)
    requires ValidConfig(c)
  {
    && |outs| == |sizes| && |states| == |sizes| + 1
    && forall i :: 0 <= i < |sizes| ==> ReadAt(w, c, sizes, outs, states, i)
  }

  ghost predicate ReadAt(w: World, c: Config, sizes: seq<nat>, outs: seq<seq<byte>>, states: seq<State>, i: nat)
    requires ValidConfig(c) && i < |outs| && i < |sizes| && i + 1 < |states|
  {
    ReadGives(w, c, states[i], sizes[i], outs[i], states[i + 1])
  }

  lemma ReadGivesStream(w: World, c: Config, ks: Keystream, s: State, n: nat, out: seq<byte>, t: State)
    requires ValidConfig(c) && c.mode.ModeDrbg? && Splittable(w, ks)
    requires OnStream(w, c, s) && ReadGives(w, c, s, n, out, t)
    ensures out == Piece(DrbgBytes(w, c, ks), s.bytes, n) && t.bytes == s.bytes + n && OnStream(w, c, t)
  {
    ReadContinues(w, c, ks, s, n);
  }

  lemma NextRead(w: World, c: Config, ks: Keystream, sizes: seq<nat>, outs: seq<seq<byte>>, states: seq<State>, i: nat)
    requires ValidConfig(c) && c.mode.ModeDrbg? && Splittable(w, ks)
    requires Reads(w, c, sizes, outs, states) && i < |sizes| && OnStream(w, c, states[i])
    ensures outs[i] == Piece(DrbgBytes(w, c, ks), states[i].bytes, sizes[i])
    ensures states[i + 1].bytes == states[i].bytes + sizes[i] && OnStream(w, c, states[i + 1])
  {
    assert ReadAt(w, c, sizes, outs, states, i);
    ReadGivesStream(w, c, ks, states[i], sizes[i], outs[i], states[i + 1]);
  }

  lemma TotalStep(sizes: seq<nat>, outs: seq<seq<byte>>, i: nat)
    requires i < |sizes| == |outs|
    ensures Total(sizes[..i + 1]) == Total(sizes[..i]) + sizes[i]
    ensures Concat(outs[..i + 1]) == Concat(outs[..i]) + outs[i]
  {
    assert sizes[..i + 1][..i] == sizes[..i] && outs[..i + 1][..i] == outs[..i];
  }

  /** However a run of successful reads splits them, the bytes are the first bytes of the one stream. */
  lemma {:induction false} ReadsAreStream(w: World, c: Config, ks: Keystream, sizes: seq<nat>, outs: seq<seq<byte>>, states: seq<State>, k: nat)
    requires ValidConfig(c) && c.mode.ModeDrbg? && Splittable(w, ks)
    requires Reads(w, c, sizes, outs, states) && OnStream(w, c, states[0]) && states[0].bytes == 0 && k <= |sizes|
    ensures Concat(outs[..k]) == Piece(DrbgBytes(w, c, ks), 0, Total(sizes[..k]))
    ensures OnStream(w, c, states[k]) && states[k].bytes == Total(sizes[..k])
  {
    if k > 0 {
      var j := k - 1;
      ReadsAreStream(w, c, ks, sizes, outs, states, j);
      NextRead(w, c, ks, sizes, outs, states, j);
      TotalStep(sizes, outs, j);
      PieceSplits(DrbgBytes(w, c, ks), 0, states[j].bytes, sizes[j]);
    }
  }

  /** T bytes have been returned: byte t is byte t mod interval of the generator keyed by key number
      t div interval + 1 of the hash chain; max(1, ceil(T / interval)) seeds have been made; and the
      chaining value is the one after that many. */
  ghost predicate IsDrbgRun(w: World, c: Config, ks: Keystream, out: seq<byte>, T: nat, s: State)
    requires c.interval >= 1
  {
    && |out| == T
    && (forall t :: 0 <= t < T ==> out[t] == ks(KeyAt(w, c, t / c.interval + 1), t % c.interval))
    && s.seeds == (if T == 0 then 1 else (T - 1) / c.interval + 1)
    && s.chain == ChainAt(w, c, s.seeds)
  }

  lemma SeedCount(interval: nat, seeds: nat, since: nat, T: nat)
    requires interval >= 1 && seeds >= 1 && since <= interval && (since > 0 || seeds == 1)
    requires T == Allowance(interval, seeds, since)
    ensures seeds == if T == 0 then 1 else (T - 1) / interval + 1
  {
    AllowanceFormula(interval, seeds, since);
    if since > 0 { ModIs(T - 1, interval, seeds - 1, since - 1); }
  }

  lemma StreamIsKeyed(w: World, c: Config, ks: Keystream, T: nat)
    requires c.interval >= 1
    ensures forall t :: 0 <= t < T ==>
      Piece(DrbgBytes(w, c, ks), 0, T)[t] == ks(KeyAt(w, c, t / c.interval + 1), t % c.interval)
  {
    forall t | 0 <= t < T ensures Piece(DrbgBytes(w, c, ks), 0, T)[t] == ks(KeyAt(w, c, t / c.interval + 1), t % c.interval) {
      assert Piece(DrbgBytes(w, c, ks), 0, T)[t] == StreamByte(w, c, ks, 0 + t);
    }
  }

  lemma OnStreamIsRun(w: World, c: Config, ks: Keystream, s: State)
    requires c.interval >= 1 && OnStream(w, c, s)
    ensures IsDrbgRun(w, c, ks, Piece(DrbgBytes(w, c, ks), 0, s.bytes), s.bytes, s)
  {
    StreamIsKeyed(w, c, ks, s.bytes);
    SeedCount(c.interval, s.seeds, s.since, s.bytes);
  }

  /** The stream theorem of ModeDRBG, for any run of successful reads of a new Reader. */
  lemma DrbgStream(w: World, c: Config, ks: Keystream, sizes: seq<nat>, outs: seq<seq<byte>>, states: seq<State>)
    requires ValidConfig(c) && c.mode.ModeDrbg? && Splittable(w, ks)
    requires Reads(w, c, sizes, outs, states) && New(w, c) == Step(states[0], Ok(()))
    ensures IsDrbgRun(w, c, ks, Concat(outs), Total(sizes), states[|sizes|])
  {
    NewStartsStream(w, c);
    ReadsAreStream(w, c, ks, sizes, outs, states, |sizes|);
    assert sizes[..|sizes|] == sizes && outs[..|sizes|] == outs;
    OnStreamIsRun(w, c, ks, states[|sizes|]);
  }

  // ---- AES-CTR is such a generator, words included ----

  /** The answers of drbg.go's AES-256-CTR generator. */
  ghost predicate IsAesCtr(w: World, ks: Keystream) {
    && (forall g: Generator, n: nat, i: nat :: i < n ==> w.readByte(g, n, i) == ks(g.key, Drawn(g.asked) + i))
    && (forall g: Generator :: w.nextWord(g) == AesWord(ks, g))
  }

  /** Eight bytes of the keystream, little-endian. */
  function AesWord(ks: Keystream, g: Generator): word {
    WordOf(seq<byte>(8, i requires 0 <= i < 8 => ks(g.key, Drawn(g.asked) + i)))
  }

  lemma AesCtrSplits(w: World, ks: Keystream)
    requires IsAesCtr(w, ks)
    ensures Splittable(w, ks)
  {}

  // ---- the ModeTRNG stream ----

  /** The first sample of digest number k. */
  function BlockStart(c: Config, k: nat): nat {
    if k == 0 then c.startupSamples else BlockStart(c, k - 1) + c.blockSamples
  }

  function BlockAt(w: World, c: Config, k: nat): Digest {
    w.sha512(TRNG_DOMAIN + WordsBytes(Words(w, BlockStart(c, k), c.blockSamples)))
  }

  function TrngByte(w: World, c: Config, t: nat): byte {
    BlockAt(w, c, t / 64)[t % 64]
  }

  function TrngBytes(w: World, c: Config): nat -> byte {
    (t: nat) => TrngByte(w, c, t)
  }

  /** k digests have been made, and all but the last blockN bytes of them handed out: t bytes. What is
      left of the last one is at the end of the block. */
  ghost predicate TrngAt(w: World, c: Config, s: State, t: nat, k: nat) {
    && |s.block| == 64 && s.blockN <= 64 && t + s.blockN == 64 * k
    && s.samples == BlockStart(c, k)
    && (s.blockN > 0 ==> k >= 1 && s.block[64 - s.blockN..] == BlockAt(w, c, k - 1)[64 - s.blockN..])
  }

  lemma BlockIsStream(w: World, c: Config, s: State, t: nat, k: nat, n: nat)
    requires TrngAt(w, c, s, t, k) && n <= s.blockN
    ensures s.block[64 - s.blockN..64 - s.blockN + n] == Piece(TrngBytes(w, c), t, n)
  {
    var start := 64 - s.blockN;
    var a, b := s.block[start..start + n], Piece(TrngBytes(w, c), t, n);
    forall i | 0 <= i < n ensures a[i] == b[i] {
      ModIs(t + i, 64, k - 1, start + i);
      assert b[i] == TrngByte(w, c, t + i);
      assert a[i] == s.block[start..][i];
    }
  }

  lemma ConsumeAdvances(w: World, c: Config, s: State, t: nat, k: nat, n: nat)
    requires TrngAt(w, c, s, t, k) && n <= s.blockN
    ensures TrngAt(w, c, Consume(s, n), t + n, k)
  {
    var u := Consume(s, n);
    assert u.block[64 - u.blockN..] == s.block[64 - s.blockN..][n..];
    if s.blockN > 0 { assert BlockAt(w, c, k - 1)[64 - s.blockN..][n..] == BlockAt(w, c, k - 1)[64 - u.blockN..]; }
  }

  lemma RefillAdvances(w: World, c: Config, s: State, t: nat, k: nat)
    requires ValidConfig(c) && TrngAt(w, c, s, t, k) && Refill(w, c, s).out.Ok?
    ensures var u := Refill(w, c, s).s;
      TrngAt(w, c, u, t, if s.blockN == 0 then k + 1 else k) && u.bytes == s.bytes
  {
    if s.blockN == 0 {
      var h := Harvest(w, c, s, c.blockSamples);
      assert h.out.value == Words(w, BlockStart(c, k), c.blockSamples);
    }
  }

  /** s has handed out the first t bytes of the ModeTRNG stream, in a call that started with the given
      byte count. */
  ghost predicate FlowingTrng(w: World, c: Config, bytes: nat, s: State, t: nat) {
    s.bytes == bytes && exists k: nat :: TrngAt(w, c, s, t, k)
  }

  ghost function TrngFlow(w: World, c: Config, bytes: nat): (State, nat) -> bool {
    (s: State, t: nat) => FlowingTrng(w, c, bytes, s, t)
  }

  lemma TrngHandsOut(w: World, c: Config, bytes: nat, s: State, t: nat, n: nat)
    requires FlowingTrng(w, c, bytes, s, t) && n <= s.blockN <= 64 == |s.block|
    ensures s.block[64 - s.blockN..64 - s.blockN + n] == Piece(TrngBytes(w, c), t, n)
    ensures FlowingTrng(w, c, bytes, Consume(s, n), t + n)
  {
    var k: nat :| TrngAt(w, c, s, t, k);
    BlockIsStream(w, c, s, t, k, n);
    ConsumeAdvances(w, c, s, t, k, n);
  }

  lemma TrngRefills(w: World, c: Config, bytes: nat, s: State, t: nat)
    requires ValidConfig(c) && FlowingTrng(w, c, bytes, s, t) && |s.block| == 64 && s.blockN <= 64 && Refill(w, c, s).out.Ok?
    ensures FlowingTrng(w, c, bytes, Refill(w, c, s).s, t)
  {
    var k: nat :| TrngAt(w, c, s, t, k);
    RefillAdvances(w, c, s, t, k);
  }

  lemma TrngSupplyFollows(w: World, c: Config, bytes: nat)
    requires ValidConfig(c)
    ensures Follows(TrngSupply(w, c), TrngFlow(w, c, bytes), TrngBytes(w, c))
  {
    var p, on, f := TrngSupply(w, c), TrngFlow(w, c, bytes), TrngBytes(w, c);
    forall s, t | p.ok(s) && on(s, t) ensures ReadyFollows(p, on, s, t) {
      if Refill(w, c, s).out.Ok? { TrngRefills(w, c, bytes, s, t); }
    }
    forall s, t, k: nat | p.ok(s) && on(s, t) && k <= p.room(s) ensures GiveFollows(p, on, f, s, t, k) {
      TrngHandsOut(w, c, bytes, s, t, k);
    }
  }

  lemma TrngChunksFollow(w: World, c: Config, p: Supply<State, Error>, on: (State, nat) -> bool, f: nat -> byte,
                         s: State, t: nat, n: nat)
    requires ValidConfig(c) && p == TrngSupply(w, c) && on == TrngFlow(w, c, s.bytes) && f == TrngBytes(w, c)
    requires Works(p) && p.ok(s) && on(s, t) && Chunks(p, s, n).out.Ok?
    ensures Chunks(p, s, n).out.value == Piece(f, t, n) && on(Chunks(p, s, n).s, t + n)
  {
    TrngSupplyFollows(w, c, s.bytes);
    ChunksFollow(p, on, f, s, t, n);
  }

  lemma ReadTrngIsChunks(w: World, c: Config, p: Supply<State, Error>, s: State, n: nat)
    requires ValidConfig(c) && p == TrngSupply(w, c) && |s.block| == 64 && s.blockN <= 64
    ensures Works(p) && p.ok(s) && ReadTrng(w, c, s, n) == Chunks(p, s, n)
  {
    TrngSupplyWorks(w, c);
  }

  lemma ReadTrngFollows(w: World, c: Config, p: Supply<State, Error>, on: (State, nat) -> bool, f: nat -> byte,
                        s: State, t: nat, n: nat)
    requires ValidConfig(c) && p == TrngSupply(w, c) && on == TrngFlow(w, c, s.bytes) && f == TrngBytes(w, c)
    requires on(s, t) && |s.block| == 64 && s.blockN <= 64 && ReadTrng(w, c, s, n).out.Ok?
    ensures ReadTrng(w, c, s, n).out.value == Piece(f, t, n)
    ensures on(ReadTrng(w, c, s, n).s, t + n)
  {
    ReadTrngIsChunks(w, c, p, s, n);
    TrngChunksFollow(w, c, p, on, f, s, t, n);
  }

  /** Between reads. */
  ghost predicate OnTrngStream(w: World, c: Config, s: State) {
    exists k: nat :: TrngAt(w, c, s, s.bytes, k)
  }

  lemma SameTrng(w: World, c: Config, s: State, u: State, t: nat)
    requires s.block == u.block && s.blockN == u.blockN && s.samples == u.samples
    requires exists k: nat :: TrngAt(w, c, s, t, k)
    ensures exists k: nat :: TrngAt(w, c, u, t, k)
  {
    var k: nat :| TrngAt(w, c, s, t, k);
    assert TrngAt(w, c, u, t, k);
  }

  lemma ReadContinuesTrng(w: World, c: Config, s: State, n: nat)
    requires ValidConfig(c) && c.mode.ModeTrng?
    requires Usable(c, s) && OnTrngStream(w, c, s) && Read(w, c, s, n).out.Ok?
    ensures var r := Read(w, c, s, n);
      && r.out.value == Piece(TrngBytes(w, c), s.bytes, n) && r.s.bytes == s.bytes + n && OnTrngStream(w, c, r.s)
  {
    if n > 0 {
      var s1 := EnterWorkers(w, c, s).0;
      SameTrng(w, c, s, s1, s.bytes);
      ReadTrngFollows(w, c, TrngSupply(w, c), TrngFlow(w, c, s.bytes), TrngBytes(w, c), s1, s.bytes, n);
      SameTrng(w, c, ReadTrng(w, c, s1, n).s, Read(w, c, s, n).s, s.bytes + n);
    }
  }

  lemma NewStartsTrng(w: World, c: Config)
    requires ValidConfig(c) && c.mode.ModeTrng? && New(w, c).out.Ok?
    ensures OnTrngStream(w, c, New(w, c).s) && New(w, c).s.bytes == 0
  {
    assert TrngAt(w, c, New(w, c).s, 0, 0);
  }

  lemma NextTrngRead(w: World, c: Config, sizes: seq<nat>, outs: seq<seq<byte>>, states: seq<State>, i: nat)
    requires ValidConfig(c) && c.mode.ModeTrng?
    requires Reads(w, c, sizes, outs, states) && i < |sizes| && OnTrngStream(w, c, states[i])
    ensures outs[i] == Piece(TrngBytes(w, c), states[i].bytes, sizes[i])
    ensures states[i + 1].bytes == states[i].bytes + sizes[i] && OnTrngStream(w, c, states[i + 1])
  {
    assert ReadAt(w, c, sizes, outs, states, i);
    ReadContinuesTrng(w, c, states[i], sizes[i]);
  }

  lemma {:induction false} TrngReadsAreStream(w: World, c: Config, sizes: seq<nat>, outs: seq<seq<byte>>, states: seq<State>, n: nat)
    requires ValidConfig(c) && c.mode.ModeTrng?
    requires Reads(w, c, sizes, outs, states) && OnTrngStream(w, c, states[0]) && states[0].bytes == 0 && n <= |sizes|
    ensures Concat(outs[..n]) == Piece(TrngBytes(w, c), 0, Total(sizes[..n]))
    ensures states[n].bytes == Total(sizes[..n]) && OnTrngStream(w, c, states[n])
  {
    if n > 0 {
      var j := n - 1;
      TrngReadsAreStream(w, c, sizes, outs, states, j);
      NextTrngRead(w, c, sizes, outs, states, j);
      TotalStep(sizes, outs, j);
      PieceSplits(TrngBytes(w, c), 0, states[j].bytes, sizes[j]);
    }
  }

  /** The stream theorem of ModeTRNG, for any run of successful reads of a new Reader: the bytes are
      the digests of successive batches of samples one after another, however they were split, and the
      bytes returned and those still waiting in the block make up whole digests of all the samples
      taken. */
  lemma TrngStream(w: World, c: Config, sizes: seq<nat>, outs: seq<seq<byte>>, states: seq<State>)
    requires ValidConfig(c) && c.mode.ModeTrng?
    requires Reads(w, c, sizes, outs, states) && New(w, c) == Step(states[0], Ok(()))
    ensures |Concat(outs)| == Total(sizes)
    ensures forall t :: 0 <= t < Total(sizes) ==> Concat(outs)[t] == BlockAt(w, c, t / 64)[t % 64]
    ensures var s := states[|sizes|];
      s.bytes == Total(sizes) && exists k: nat :: s.bytes + s.blockN == 64 * k && s.samples == BlockStart(c, k)
  {
    NewStartsTrng(w, c);
    TrngReadsAreStream(w, c, sizes, outs, states, |sizes|);
    assert sizes[..|sizes|] == sizes && outs[..|sizes|] == outs;
    forall t | 0 <= t < Total(sizes) ensures Concat(outs)[t] == BlockAt(w, c, t / 64)[t % 64] {
      assert Concat(outs)[t] == TrngByte(w, c, 0 + t);
    }
    var k: nat :| TrngAt(w, c, states[|sizes|], states[|sizes|].bytes, k);
  }
}
