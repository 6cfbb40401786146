/** The AES-256-CTR generator of drbg.go over an arbitrary keystream. */
module Drbg {
  import opened Common
  import opened Bytes

  /** keystream(key, i) is byte i of the block cipher's output in counter mode from a zero block. */
  type Keystream = (seq<byte>, nat) -> byte

  function Slice(ks: Keystream, key: seq<byte>, from: nat, n: nat): (r: seq<byte>)
    ensures |r| == n
  {
    seq(n, i requires 0 <= i < n => ks(key, from + i))
  }

  /** Reading n and then m bytes is reading n + m bytes. */
  lemma SliceSplits(ks: Keystream, key: seq<byte>, from: nat, n: nat, m: nat)
    ensures Slice(ks, key, from, n) + Slice(ks, key, from + n, m) == Slice(ks, key, from, n + m)
  {}

  function Xor(a: byte, b: byte): byte {
    ((a as bv8) ^ (b as bv8)) as int
  }

  lemma XorZero(k: byte)
    ensures Xor(0, k) == k
  {}

  class AesCtr {
    const keystream: Keystream
    var key: seq<byte>    // of the current stream
    var used: nat         // how far the current stream has been consumed
    const buf: array<byte>

    ghost predicate Valid() {
      buf.Length == 8
    }

    constructor (keystream: Keystream, key: seq<byte>)
      ensures Valid() && fresh(buf) && this.keystream == keystream
      ensures this.key == key && used == 0
    {
      this.keystream := keystream;
      this.key, used := key, 0;
      buf := new byte[8](_ => 0);
    }

    method Reseed(key: seq<byte>)
      modifies `key, `used
      ensures this.key == key && used == 0
    {
      this.key, used := key, 0;
    }

    /** XORs the next bytes of the stream into p[lo..hi]. */
    method XorKeyStream(p: array<byte>, lo: nat, hi: nat)
      requires lo <= hi <= p.Length
      modifies `used, p
      ensures used == old(used) + (hi - lo)
      ensures forall i :: lo <= i < hi ==> p[i] == Xor(old(p[i]), keystream(key, old(used) + (i - lo)))
      ensures forall i :: 0 <= i < p.Length && !(lo <= i < hi) ==> p[i] == old(p[i])
    {
      for i := lo to hi
        invariant used == old(used)
        invariant forall j :: lo <= j < i ==> p[j] == Xor(old(p[j]), keystream(key, old(used) + (j - lo)))
        invariant forall j :: 0 <= j < p.Length && !(lo <= j < i) ==> p[j] == old(p[j])
      {
        p[i] := Xor(p[i], keystream(key, used + (i - lo)));
      }
      used := used + (hi - lo);
    }

    /** Overwrites p[lo..hi], whatever it held, with the next bytes of the stream. */
    method Read(p: array<byte>, lo: nat, hi: nat)
      requires lo <= hi <= p.Length
      modifies `used, p
      ensures used == old(used) + (hi - lo)
      ensures p[..] == old(p[..lo]) + Slice(keystream, key, old(used), hi - lo) + old(p[hi..])
    {
      for i := lo to hi
        invariant forall j :: lo <= j < i ==> p[j] == 0
        invariant forall j :: 0 <= j < p.Length && !(lo <= j < i) ==> p[j] == old(p[j])
        invariant used == old(used)
      {
        p[i] := 0;
      }
      XorKeyStream(p, lo, hi);
      forall i | lo <= i < hi ensures p[i] == keystream(key, old(used) + (i - lo)) {
        XorZero(keystream(key, old(used) + (i - lo)));
      }
    }

    /** The next eight bytes of the stream as a little-endian word. */
    method Uint64() returns (x: word)
      requires Valid()
      modifies `used, buf
      ensures used == old(used) + 8
      ensures WordBytes(x) == Slice(keystream, key, old(used), 8)
    {
      Read(buf, 0, 8);
      EncodeDecode(buf[..]);
      x := WordOf(buf[..]);
    }
  }

  // ---- any mix of reads and words ----

  datatype Request = Bytes(n: nat) | Word

  function Amount(r: Request): nat {
    if r.Bytes? then r.n else 8
  }

  function Total(rs: seq<Request>): nat {
    if rs == [] then 0 else Total(rs[..|rs| - 1]) + Amount(rs[|rs| - 1])
  }

  /** However the requests are mixed and sized, the bytes delivered are the keystream in order, none
      skipped and none repeated. */
  method Serve(d: AesCtr, rs: seq<Request>) returns (out: seq<byte>)
    requires d.Valid()
    modifies d, d.buf
    ensures out == Slice(d.keystream, old(d.key), old(d.used), Total(rs))
    ensures d.used == old(d.used) + Total(rs) && d.key == old(d.key)
  {
    out := [];
    for i := 0 to |rs|
      invariant d.key == old(d.key) && d.used == old(d.used) + Total(rs[..i])
      invariant out == Slice(d.keystream, d.key, old(d.used), Total(rs[..i]))
    {
      assert rs[..i + 1][..i] == rs[..i];
      SliceSplits(d.keystream, d.key, old(d.used), Total(rs[..i]), Amount(rs[i]));
      if rs[i].Bytes? {
        var p := new byte[rs[i].n];
        d.Read(p, 0, p.Length);
        out := out + p[..];
      } else {
        var x := d.Uint64();
        out := out + WordBytes(x);
      }
    }
    assert rs[..|rs|] == rs;
  }
}
