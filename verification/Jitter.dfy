/** The conditioned jitter reader of internal/jitter/jitter.go: a block-buffered reader whose output
    does not depend on how it is read. */
module Jitter {
  import opened Common
  import opened Bytes

  /** The timing samples, in order, and the hash. */
  datatype World = World(sample: nat -> word, sha512: seq<byte> -> Digest)

  function Samples(w: World, from: nat, n: nat): (r: seq<word>)
    ensures |r| == n
  {
    seq<word>(n, i requires 0 <= i < n => w.sample(from + i))
  }

  /** Block k of the stream: the digest of the k-th batch of per samples. */
  function Block(w: World, per: nat, k: nat): Digest {
    w.sha512(WordsBytes(Samples(w, k * per, per)))
  }

  /** The string is a whole batch of samples, little-endian, and nothing else. */
  ghost predicate HoldsBatch(w: World, per: nat, k: nat, d: seq<byte>) {
    |d| == 8 * per && forall i :: 0 <= i < per ==> HoldsSample(w, d, k * per, i)
  }

  ghost predicate HoldsSample(w: World, d: seq<byte>, from: nat, i: nat) {
    HoldsWord(d, 8 * i, w.sample(from + i))
  }

  /** What is hashed for block k: its samples, without a domain prefix. */
  lemma BlocksComeFromSamples(w: World, per: nat, k: nat)
    ensures exists d :: HoldsBatch(w, per, k, d) && w.sha512(d) == Block(w, per, k)
  {
    var d := WordsBytes(Samples(w, k * per, per));
    forall i | 0 <= i < per ensures HoldsSample(w, d, k * per, i) { WordsBytesAt(Samples(w, k * per, per), i); }
    assert HoldsBatch(w, per, k, d) && w.sha512(d) == Block(w, per, k);
  }

  function StreamByte(w: World, per: nat, t: nat): byte {
    Block(w, per, t / 64)[t % 64]
  }

  /** The bytes from position t on. */
  function Stream(w: World, per: nat, t: nat, n: nat): (r: seq<byte>)
    ensures |r| == n
  {
    seq<byte>(n, i requires 0 <= i < n => StreamByte(w, per, t + i))
  }

  lemma StreamSplits(w: World, per: nat, t: nat, n: nat, m: nat)
    ensures Stream(w, per, t, n) + Stream(w, per, t + n, m) == Stream(w, per, t, n + m)
  {}

  /** The last n bytes of block k are the n bytes before position 64 (k + 1). */
  lemma BlockSuffix(w: World, per: nat, k: nat, n: nat, c: nat)
    requires c <= n <= 64
    ensures Block(w, per, k)[64 - n..64 - n + c] == Stream(w, per, 64 * (k + 1) - n, c)
  {
    var a, b := Block(w, per, k)[64 - n..64 - n + c], Stream(w, per, 64 * (k + 1) - n, c);
    forall j | 0 <= j < c ensures a[j] == b[j] {
      var t := 64 * (k + 1) - n + j;
      ModIs(t, 64, k, 64 - n + j);
      assert b[j] == StreamByte(w, per, t);
      assert a[j] == Block(w, per, k)[64 - n + j];
    }
  }

  class ConditionedReader {
    const w: World
    const samples: nat
    const buf: array<byte>
    var block: Digest
    var n: nat
    var taken: nat             // samples taken from the source
    ghost var delivered: nat   // bytes returned to callers
    ghost var blocks: nat      // digests computed

    /** All but the last n bytes of the digests computed so far have been delivered. */
    ghost predicate Valid()
      reads this
    {
      && samples >= 1 && buf.Length == 8 * samples
      && n <= 64 && delivered + n == 64 * blocks
      && taken == blocks * samples
      && (n > 0 ==> blocks > 0 && block == Block(w, samples, blocks - 1))
    }

    constructor (w: World, samplesPerBlock: nat)
      requires 1 <= samplesPerBlock <= 1048576
      ensures Valid() && delivered == 0 && this.w == w && samples == samplesPerBlock && fresh(buf)
    {
      this.w, samples := w, samplesPerBlock;
      buf := new byte[8 * samplesPerBlock](_ => 0);
      block := seq(64, _ => 0);
      n, taken, delivered, blocks := 0, 0, 0, 0;
    }

    /** Takes one batch of samples and digests it. */
    method Refill()
      requires Valid() && n == 0
      modifies this, buf
      ensures Valid() && n == 64 && delivered == old(delivered)
    {
      ghost var from := taken;
      for i := 0 to samples
        invariant Valid0() && taken == from + i && delivered == old(delivered) && blocks == old(blocks) && n == 0
        invariant buf[..8 * i] == WordsBytes(Samples(w, from, i))
      {
        var s := w.sample(taken);
        taken := taken + 1;
        Copy(buf, 8 * i, WordBytes(s));
        assert Samples(w, from, i + 1)[..i] == Samples(w, from, i);
      }
      assert buf[..] == buf[..8 * samples];
      block := w.sha512(buf[..]);
      n := 64;
      blocks := blocks + 1;
    }

    ghost predicate Valid0()
      reads this
    {
      samples >= 1 && buf.Length == 8 * samples
    }

    /** Copies as much of the current digest as fits into p from position i on. */
    method Deliver(p: array<byte>, i: nat) returns (c: nat)
      requires Valid() && n > 0 && i < p.Length
      modifies this, p
      ensures Valid() && 1 <= c <= p.Length - i && delivered == old(delivered) + c
      ensures p[..i + c] == old(p[..i]) + Stream(w, samples, old(delivered), c)
    {
      c := Min(p.Length - i, n);
      BlockSuffix(w, samples, blocks - 1, n, c);
      Copy(p, i, block[64 - n..64 - n + c]);
      n := n - c;
      delivered := delivered + c;
    }

    /** Fills p with the next bytes of the stream. */
    method Read(p: array<byte>) returns (total: nat)
      requires Valid() && p != buf
      modifies this, buf, p
      ensures Valid()
      ensures total == p.Length && delivered == old(delivered) + p.Length
      ensures p[..] == Stream(w, samples, old(delivered), p.Length)
    {
      var i := 0;
      while i < p.Length
        invariant Valid() && i <= p.Length && delivered == old(delivered) + i
        invariant p[..i] == Stream(w, samples, old(delivered), i)
      {
        if n == 0 { Refill(); }
        var c := Deliver(p, i);
        StreamSplits(w, samples, old(delivered), i, c);
        i := i + c;
      }
      assert p[..] == p[..i];
      return p.Length;
    }
  }

  function Total(sizes: seq<nat>): nat {
    if sizes == [] then 0 else Total(sizes[..|sizes| - 1]) + sizes[|sizes| - 1]
  }

  /** However a reader is read, the concatenation of what it returns is the same stream. */
  method ReadSplit(r: ConditionedReader, sizes: seq<nat>) returns (out: seq<byte>)
    requires r.Valid()
    modifies r, r.buf
    ensures out == Stream(r.w, r.samples, old(r.delivered), Total(sizes))
  {
    out := [];
    for i := 0 to |sizes|
      invariant r.Valid() && r.delivered == old(r.delivered) + Total(sizes[..i])
      invariant out == Stream(r.w, r.samples, old(r.delivered), Total(sizes[..i]))
    {
      assert sizes[..i + 1][..i] == sizes[..i];
      StreamSplits(r.w, r.samples, old(r.delivered), Total(sizes[..i]), sizes[i]);
      var p := new byte[sizes[i]];
      var _ := r.Read(p);
      out := out + p[..];
    }
    assert sizes[..|sizes|] == sizes;
  }
}
