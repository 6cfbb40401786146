/** The effect of every public call of reader.go: exactly when it succeeds, what it returns and what it
    leaves behind. */
module ReaderCallEffects {
  import opened Common
  import opened Bytes
  import opened HealthTests
  import opened Chunked
  import opened ReaderModel
  import opened ReaderInvariants
  import opened ReaderRuns
  import opened ReaderStreams
  import opened ReaderEffects
  import Sampling

  ghost predicate AllZero(b: seq<byte>) {
    forall i :: 0 <= i < |b| ==> b[i] == 0
  }

  // ---- New and Reset ----

  /** New succeeds exactly with enough procs, twice looked at, and good enough first samples; the Reader
      has then taken just those and, in ModeDRBG, its first seed. */
  lemma NewEffect(w: World, c: Config)
    requires ValidConfig(c)
    ensures var r := New(w, c);
      && (r.out.Ok? <==> w.procs(0) >= 2 && w.procs(1) >= 2 && CanStart(w, c, [], 0, 0))
      && (w.procs(0) < 2 ==> r.out == Fail(NotEnoughProcs) && r.s.samples == 0)
      && (r.out.Ok? ==> Started(w, c, Fresh(c), r.s) && r.s.err.None? && !r.s.closed && r.s.bytes == 0 && r.s.blockN == 0)
  {
    hide Start, CanStart, IsSeed;
    StartEffect(w, c, Fresh(c));
  }

  /** Reset empties the block and restarts the health tests, failed or not, and succeeds exactly when
      the samples after those taken so far are good enough for an empty trace; it has then cleared the
      error and, in ModeDRBG, made a new seed. */
  lemma ResetEffect(w: World, c: Config, s: State)
    requires ValidConfig(c) && !s.closed
    ensures var r := Reset(w, c, s);
      && r.s.blockN == 0 && |r.s.block| == 64 && AllZero(r.s.block) && r.s.bytes == s.bytes && !r.s.closed
      && (r.out.Ok? <==> w.procs(s.looks) >= 2 && CanStart(w, c, [], s.samples, s.osReads))
      && (r.out == Fail(NotEnoughProcs) <==> w.procs(s.looks) < 2)
      && (r.out.Ok? ==> r.s.err.None? && Started(w, c, s.(trace := []), r.s))
      && (r.out.Fail? ==> r.s.err == Some(r.out.error))
  {
    hide Start, CanStart, IsSeed;
    var u := s.(err := None, blockN := 0, block := Zeros(64), trace := [], running := s.running || c.persistent);
    StartEffect(w, c, u);
  }

  // ---- Reseed ----

  /** What a seeding that succeeded has done from the given state. */
  ghost predicate Seeded(w: World, c: Config, s: State, t: State) {
    && t.gen.Some? && t.gen.value.asked == [] && t.since == 0 && t.seeds == s.seeds + 1
    && t.samples == s.samples + c.seedSamples
    && IsSeed(w, c, t.gen.value.key, t.chain, s.chain, s.samples, OsNow(w, c, s))
  }

  lemma ReseedEffect(w: World, c: Config, s: State)
    requires ValidConfig(c)
    ensures var r := Reseed(w, c, s);
      && (r.out.Ok? <==> w.procs(s.looks) >= 2 && CanSeed(w, c, s.trace, s.samples, s.osReads))
      && (r.out.Ok? ==> Seeded(w, c, s, r.s))
      && (r.out.Fail? ==> r.s.gen == s.gen && r.s.chain == s.chain && r.s.since == s.since && r.s.seeds == s.seeds)
      && (r.out == Fail(NotEnoughProcs) <==> w.procs(s.looks) < 2)
      && Untouched(s, r.s)
  {
    hide ReseedLocked, CanSeed, IsSeed;
    var (u, ok) := EnterWorkers(w, c, s);
    if ok {
      ReseedLockedEffect(w, c, u);
      ReseedLockedTouches(w, c, u);
      if ReseedLocked(w, c, u).out.Ok? { SeedComesFromSamples(w, c, u); }
    }
  }

  /** On an open ModeDRBG Reader without an error a forced reseed succeeds exactly when a seed can be
      made, and has then made it, used up interval or not; a failed one leaves the generator's state. */
  lemma ForceReseedEffect(w: World, c: Config, s: State)
    requires ValidConfig(c) && c.mode.ModeDrbg? && !s.closed && s.err.None?
    ensures var r := ForceReseed(w, c, s);
      && (r.out.Ok? <==> w.procs(s.looks) >= 2 && CanSeed(w, c, s.trace, s.samples, s.osReads))
      && (r.out.Ok? ==> Seeded(w, c, s, r.s) && r.s.err.None?)
      && (r.out.Fail? ==> r.s.gen == s.gen && r.s.chain == s.chain && r.s.err == Some(r.out.error))
      && r.s.bytes == s.bytes
  {
    hide Reseed, CanSeed, IsSeed;
    ReseedEffect(w, c, s);
  }

  lemma ForceReseedElsewhere(w: World, c: Config, s: State)
    requires ValidConfig(c) && !c.mode.ModeDrbg? && !s.closed && s.err.None?
    ensures ForceReseed(w, c, s) == Step(s, Ok(()))
  {}

  // ---- Read ----

  /** A ModeRaw read succeeds exactly when its samples pass; the bytes are then the folds of the
      samples, one each. */
  lemma RawReadEffect(w: World, c: Config, s: State, n: nat)
    requires ValidConfig(c) && Usable(c, s) && c.mode.ModeRaw? && !s.closed && s.err.None? && n > 0
    ensures var r := Read(w, c, s, n);
      && (r.out.Ok? <==> w.procs(s.looks) >= 2 && AllPass(w, c, s.trace, s.samples, n))
      && (r.out.Ok? ==>
          && |r.out.value| == n && r.s.samples == s.samples + n && r.s.bytes == s.bytes + n
          && forall i :: 0 <= i < n ==> r.out.value[i] == Sampling.FoldWord(w.sample(s.samples + i)))
  {
    hide Harvest, AllPass, Sampling.FoldWord;
    var (u, ok) := EnterWorkers(w, c, s);
    if ok {
      HarvestEffect(w, c, u, n);
      RawBytes(w, s.samples, n);
    }
  }

  lemma RawBytes(w: World, from: nat, n: nat)
    ensures forall i :: 0 <= i < n ==> Folded(Words(w, from, n))[i] == Sampling.FoldWord(w.sample(from + i))
  {
    hide Sampling.FoldWord;
  }

  /** Without enough procs the other modes take no sample. */
  lemma NoProcsNoSamples(w: World, c: Config, s: State, n: nat)
    requires ValidConfig(c) && Usable(c, s) && !c.mode.ModeDrbg? && !s.closed && s.err.None? && n > 0
    requires w.procs(s.looks) < 2
    ensures Read(w, c, s, n).out == Fail(NotEnoughProcs) && Read(w, c, s, n).s.samples == s.samples
  {}

  /** A ModeDRBG read within the interval always succeeds, and touches neither workers nor samples. */
  lemma ReadWithinInterval(w: World, c: Config, s: State, n: nat)
    requires ValidConfig(c) && Usable(c, s) && c.mode.ModeDrbg? && !s.closed && s.err.None?
    requires s.since + n <= c.interval
    ensures var r := Read(w, c, s, n);
      && r.out.Ok? && r.s.since == s.since + n && r.s.bytes == s.bytes + n
      && r.s == s.(gen := r.s.gen, since := r.s.since, bytes := r.s.bytes)
      && forall i :: 0 <= i < n ==> r.out.value[i] == w.readByte(s.gen.value, n, i)
  {
    if n > 0 {
      DrbgChunk(w, c, s, n);
      DrbgNothing(w, c, Draw(s, n));
      assert Answer(w, s.gen.value, n) + [] == Answer(w, s.gen.value, n);
    }
  }

  // ---- Uint64 ----

  /** The bytes of a word are eight bytes of the keystream of a key, from position p on. */
  ghost predicate IsKeystreamWord(ks: Keystream, x: word, key: seq<byte>, p: nat) {
    forall i :: 0 <= i < 8 ==> WordBytes(x)[i] == ks(key, p + i)
  }

  lemma AesWordBytes(ks: Keystream, g: Generator)
    ensures IsKeystreamWord(ks, AesWord(ks, g), g.key, Drawn(g.asked))
  {
    var b := seq<byte>(8, i requires 0 <= i < 8 => ks(g.key, Drawn(g.asked) + i));
    EncodeDecode(b);
    assert WordBytes(AesWord(ks, g)) == b;
  }

  /** A ModeDRBG word is the next eight bytes of the current key when the interval has eight left, and
      otherwise the first eight of a new key; over AES-CTR. */
  lemma WordIsKeystream(w: World, c: Config, ks: Keystream, s: State)
    requires ValidConfig(c) && Between(c, s) && c.mode.ModeDrbg? && !s.closed && s.err.None? && c.interval >= 8
    requires IsAesCtr(w, ks)
    ensures var r := Uint64(w, c, s);
      if s.since + 8 <= c.interval then
        && r.out.Ok? && IsKeystreamWord(ks, r.out.value, s.gen.value.key, s.since)
        && r.s.since == s.since + 8 && r.s.bytes == s.bytes + 8 && r.s.seeds == s.seeds && r.s.samples == s.samples
      else
        && (r.out.Ok? <==> w.procs(s.looks) >= 2 && CanSeed(w, c, s.trace, s.samples, s.osReads))
        && (r.out.Ok? ==>
            && r.s.gen.Some? && IsKeystreamWord(ks, r.out.value, r.s.gen.value.key, 0)
            && IsSeed(w, c, r.s.gen.value.key, r.s.chain, s.chain, s.samples, OsNow(w, c, s))
            && r.s.since == 8 && r.s.bytes == s.bytes + 8 && r.s.seeds == s.seeds + 1)
  {
    hide Reseed, CanSeed, IsSeed, IsKeystreamWord, AesWord;
    if s.since + 8 <= c.interval {
      AesWordBytes(ks, s.gen.value);
    } else {
      ReseedEffect(w, c, s);
      var r := Reseed(w, c, s);
      if r.out.Ok? { AesWordBytes(ks, r.s.gen.value); }
    }
  }

  /** Elsewhere a word is the eight bytes that a read in the same state returns, little-endian, and it
      fails as that read does. */
  lemma WordIsRead(w: World, c: Config, s: State)
    requires ValidConfig(c) && Usable(c, s)
    requires !c.mode.ModeDrbg? || s.err.Some? || s.closed || c.interval < 8
    ensures var x, r := Uint64(w, c, s), Read(w, c, s, 8);
      && x.s == r.s
      && match r.out
         case Ok(b) => x.out.Ok? && WordBytes(x.out.value) == b
         case Fail(e) => x.out == Fail(e)
  {
    var r := Read(w, c, s, 8);
    if r.out.Ok? { EncodeDecode(r.out.value); }
  }

  lemma TrngWordIsStream(w: World, c: Config, s: State)
    requires ValidConfig(c) && c.mode.ModeTrng? && Usable(c, s) && OnTrngStream(w, c, s) && Uint64(w, c, s).out.Ok?
    ensures var x := Uint64(w, c, s);
      && WordBytes(x.out.value) == Piece(TrngBytes(w, c), s.bytes, 8)
      && x.s.bytes == s.bytes + 8 && OnTrngStream(w, c, x.s)
  {
    WordIsRead(w, c, s);
    ReadContinuesTrng(w, c, s, 8);
  }

  // ---- Close ----

  /** What is left of a Reader that was closed. */
  ghost predicate Gone(s: State) {
    && s.closed && !s.running && s.gen.None? && s.blockN == 0
    && |s.chain| == 32 && AllZero(s.chain) && |s.block| == 64 && AllZero(s.block)
  }

  lemma CloseEffect(c: Config, s: State)
    requires Between(c, s)
    ensures Gone(Close(s))
  {}

  /** After a Close, in any sequence of calls, the Reader is gone, and every later read, word, reseed
      and reset reports that it is closed. */
  lemma CloseIsFinal(w: World, c: Config, calls: seq<Call>, states: seq<State>, i: nat, j: nat)
    requires History(w, c, calls, states) && i < |calls| && calls[i].DoClose? && i < j < |states|
    ensures Gone(states[j]) && Usable(c, states[j])
    ensures forall n :: Read(w, c, states[j], n).out == Fail(Closed)
    ensures Uint64(w, c, states[j]).out == Fail(Closed)
    ensures Reset(w, c, states[j]).out == Fail(Closed) && ForceReseed(w, c, states[j]).out == Fail(Closed)
  {
    AlwaysBetween(w, c, calls, states, i);
    assert CallAt(w, c, calls, states, i);
    CloseEffect(c, states[i]);
    ClosedForGood(w, c, calls, states, i + 1, j);
  }
}
