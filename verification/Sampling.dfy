/** One raw sample of harvester.go: the poll loop, the packing of its three fields, and what happens
    to the health tests when the workers stall. */
module Sampling {
  import opened Common
  import Harvester
  import HealthTests

  const DELTA_MASK: bv64 := 0xFFFF_FFFF_FFFF

  function Pack(delta: bv64, polls: bv64, id: bv32): bv64 {
    (delta & DELTA_MASK) | ((polls & 0xFF) << 48) | ((id as bv64) << 56)
  }

  /** For worker ids below 256 the three fields can be read back: packing loses no id bits, and no
      field leaks into another. */
  lemma PackFields(delta: bv64, polls: bv64, id: bv32)
    requires id < 256
    ensures Pack(delta, polls, id) & DELTA_MASK == delta & DELTA_MASK
    ensures (Pack(delta, polls, id) >> 48) & 0xFF == polls & 0xFF
    ensures Pack(delta, polls, id) >> 56 == id as bv64
  {}

  function Fold(s: bv64): bv8 {
    var s1 := s ^ (s >> 32);
    var s2 := s1 ^ (s1 >> 16);
    var s3 := s2 ^ (s2 >> 8);
    (s3 & 0xFF) as bv8
  }

  /** Fold on samples as numbers. */
  function FoldWord(x: word): byte {
    Fold(x as bv64) as int
  }

  /** The byte of the sample from bit k on. */
  function ByteAt(s: bv64, k: bv7): bv8
    requires k <= 56
  {
    ((s >> k) & 0xFF) as bv8
  }

  lemma FoldWords(s: bv64)
    ensures var t := s ^ (s >> 32);
      && ByteAt(t, 0) == ByteAt(s, 0) ^ ByteAt(s, 32) && ByteAt(t, 8) == ByteAt(s, 8) ^ ByteAt(s, 40)
      && ByteAt(t, 16) == ByteAt(s, 16) ^ ByteAt(s, 48) && ByteAt(t, 24) == ByteAt(s, 24) ^ ByteAt(s, 56)
  {}

  lemma FoldHalves(s: bv64)
    ensures var t := s ^ (s >> 16);
      ByteAt(t, 0) == ByteAt(s, 0) ^ ByteAt(s, 16) && ByteAt(t, 8) == ByteAt(s, 8) ^ ByteAt(s, 24)
  {}

  lemma FoldBytes(s: bv64)
    ensures ((s ^ (s >> 8)) & 0xFF) as bv8 == ByteAt(s, 0) ^ ByteAt(s, 8)
  {}

  /** Folding is the XOR of the eight bytes of the sample. */
  lemma FoldIsXorOfBytes(s: bv64)
    ensures Fold(s) == ByteAt(s, 0) ^ ByteAt(s, 8) ^ ByteAt(s, 16) ^ ByteAt(s, 24)
                       ^ ByteAt(s, 32) ^ ByteAt(s, 40) ^ ByteAt(s, 48) ^ ByteAt(s, 56)
  {
    hide ByteAt;
    var s1 := s ^ (s >> 32);
    var s2 := s1 ^ (s1 >> 16);
    FoldWords(s);
    FoldHalves(s1);
    FoldBytes(s2);
  }

  /** The same for samples as numbers. */
  lemma FoldWordIsXorOfBytes(x: word)
    ensures FoldWord(x) as bv8
         == ByteAt(x as bv64, 0) ^ ByteAt(x as bv64, 8) ^ ByteAt(x as bv64, 16) ^ ByteAt(x as bv64, 24)
            ^ ByteAt(x as bv64, 32) ^ ByteAt(x as bv64, 40) ^ ByteAt(x as bv64, 48) ^ ByteAt(x as bv64, 56)
  {
    hide ByteAt, Fold;
    FoldIsXorOfBytes(x as bv64);
  }

  const MAX_POLLS: nat := Harvester.MAX_POLLS

  /** The consumer's side of the harvester. */
  class Consumer {
    var prev: word

    /** load(k) is what the k-th load of the counter in this call returns, and last what the final load
        of the worker id returns. The sample reports the first load that differs from prev, or the
        last one allowed, and how many loads came before it. */
    method SampleAtomic(load: nat -> word, last: nat) returns (sample: Harvester.Sample, ghost polls: nat)
      modifies this
      ensures polls <= MAX_POLLS
      ensures forall j :: 0 <= j < polls ==> load(j) == old(prev)
      ensures load(polls) != old(prev) || polls == MAX_POLLS
      ensures prev == load(polls)
      ensures sample.delta == (load(polls) - old(prev)) % 0x1_0000_0000_0000
      ensures sample.polls == polls % 256 && sample.id == last
    {
      var before := prev;
      var n: nat := 0;
      while true
        invariant n <= MAX_POLLS
        invariant prev == before == old(prev)
        invariant forall j :: 0 <= j < n ==> load(j) == before
        decreases MAX_POLLS - n
      {
        var v := load(n);
        if v != before || n >= MAX_POLLS {
          prev := v;
          Harvester.ModWordToDelta(v as int - before as int);
          return Harvester.Packed(Harvester.Difference(v, before), n, last), n;
        }
        n := n + 1;
      }
    }
  }

  // ---- a stall of the workers meets the health tests ----

  /** The packed sample as a number. */
  function WordOf(x: Harvester.Sample): word {
    (x.delta % Harvester.DELTA) + (x.polls % 256) * 0x1_0000_0000_0000 + (x.id % 256) * 0x100_0000_0000_0000
  }

  /** The three fields of the packed number. */
  lemma WordFields(x: Harvester.Sample)
    requires x.delta < Harvester.DELTA && x.polls < 256 && x.id < 256
    ensures WordOf(x) % 0x1_0000_0000_0000 == x.delta
    ensures (WordOf(x) / 0x1_0000_0000_0000) % 256 == x.polls
    ensures WordOf(x) / 0x100_0000_0000_0000 == x.id
  {
    ModIs(WordOf(x), 0x1_0000_0000_0000, x.polls + 256 * x.id, x.delta);
    ModIs(x.polls + 256 * x.id, 256, x.id, x.polls);
    ModIs(WordOf(x), 0x100_0000_0000_0000, x.id, x.delta + x.polls * 0x1_0000_0000_0000);
  }

  function Words(xs: seq<Harvester.Sample>): seq<word> {
    seq(|xs|, i requires 0 <= i < |xs| => WordOf(xs[i]))
  }

  /** When the workers stop taking steps, the health tests reject the source within RunLimit + 1
      samples, whatever they had seen before. */
  lemma StalledSourceIsRejected(s: Harvester.State, actions: seq<Harvester.Action>,
                                c: HealthTests.Cutoffs, trace: seq<word>)
    requires Harvester.Inv(s) && s.sampler.Idle? && c.window >= 1
    requires Harvester.Run(s, actions) && Harvester.OnlySampling(actions)
    requires |Harvester.Final(s, actions).samples| >= |s.samples| + 1 + HealthTests.RunLimit(c)
    ensures var xs := Words(Harvester.Final(s, actions).samples[|s.samples|..]);
      HealthTests.FirstFailure(HealthTests.Judging(c), trace, xs) < 1 + HealthTests.RunLimit(c)
  {
    Harvester.StalledSamplesRepeat(s, actions, s.counter, s.last, |s.samples|);
    var xs := Words(Harvester.Final(s, actions).samples[|s.samples|..]);
    HealthTests.StuckIsRejected(c, trace, xs, 1);
  }
}
