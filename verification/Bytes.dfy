/** Byte strings: little-endian encodings of 64-bit words, digests and copying. */
module Bytes {
  import opened Common

  function Encode(x: nat, n: nat): (r: seq<byte>)
    ensures |r| == n
  {
    if n == 0 then [] else [x % 256] + Encode(x / 256, n - 1)
  }

  function Decode(b: seq<byte>): (x: nat)
  {
    if b == [] then 0 else b[0] + 256 * Decode(b[1..])
  }

  function Range(n: nat): (r: nat)
    ensures r > 0
  {
    if n == 0 then 1 else 256 * Range(n - 1)
  }

  lemma {:induction false} DecodeInRange(b: seq<byte>)
    ensures Decode(b) < Range(|b|)
  {
    if b != [] { DecodeInRange(b[1..]); }
  }

  lemma {:induction false} DecodeEncode(x: nat, n: nat)
    requires x < Range(n)
    ensures Decode(Encode(x, n)) == x
  {
    if n > 0 {
      DecodeEncode(x / 256, n - 1);
      assert Encode(x, n)[1..] == Encode(x / 256, n - 1);
    }
  }

  lemma {:induction false} EncodeDecode(b: seq<byte>)
    ensures Encode(Decode(b), |b|) == b
  {
    if b != [] {
      EncodeDecode(b[1..]);
      var d := Decode(b[1..]);
      ModIs(b[0] + 256 * d, 256, d, b[0]);
    }
  }

  /** The eight bytes of a sample. */
  function WordBytes(x: word): seq<byte> {
    Encode(x, 8)
  }

  function WordOf(b: seq<byte>): word
    requires |b| == 8
  {
    DecodeInRange(b);
    assert Range(8) == 0x1_0000_0000_0000_0000;
    Decode(b)
  }

  /** The samples one after another, eight bytes each. */
  function WordsBytes(xs: seq<word>): (r: seq<byte>)
    ensures |r| == 8 * |xs|
  {
    if xs == [] then [] else WordsBytes(xs[..|xs| - 1]) + WordBytes(xs[|xs| - 1])
  }

  /** Byte k of the encoding is digit k of the number in base 256, least significant first. */
  lemma {:induction false} EncodeAt(x: nat, n: nat, k: nat)
    requires k < n
    ensures Encode(x, n)[k] == (x / Range(k)) % 256
  {
    if k > 0 {
      EncodeAt(x / 256, n - 1, k - 1);
      DivideTwice(x, Range(k - 1));
    }
  }

  lemma DivideTwice(x: nat, b: nat)
    requires b > 0
    ensures (x / 256) / b == x / (256 * b)
  {
    var q, r := x / 256 / b, (x / 256) % b;
    var t := q * b;
    assert x / 256 == t + r && r <= b - 1;
    assert q * (256 * b) == 256 * t;
    ModIs(x, 256 * b, q, 256 * r + x % 256);
  }

  /** Eight bytes of the string, read back little-endian, are the word. */
  ghost predicate HoldsWord(b: seq<byte>, at: nat, x: word) {
    at + 8 <= |b| && Decode(b[at..at + 8]) == x
  }

  lemma {:induction false} WordsBytesAt(xs: seq<word>, i: nat)
    requires i < |xs|
    ensures HoldsWord(WordsBytes(xs), 8 * i, xs[i])
  {
    var n := |xs| - 1;
    var b, front := WordsBytes(xs), WordsBytes(xs[..n]);
    if i < n {
      WordsBytesAt(xs[..n], i);
      assert b[8 * i..8 * i + 8] == front[8 * i..8 * i + 8];
    } else {
      assert b[8 * i..8 * i + 8] == WordBytes(xs[i]);
      assert Range(8) == 0x1_0000_0000_0000_0000;
      DecodeEncode(xs[i], 8);
    }
  }

  type Digest = s: seq<byte> | |s| == 64 witness seq(64, _ => 0)

  /** Go's copy into p from position lo on. */
  method Copy(p: array<byte>, lo: nat, src: seq<byte>)
    requires lo + |src| <= p.Length
    modifies p
    ensures p[..] == old(p[..lo]) + src + old(p[lo + |src|..])
  {
    for i := 0 to |src|
      invariant p[lo..lo + i] == src[..i]
      invariant forall j :: 0 <= j < p.Length && !(lo <= j < lo + i) ==> p[j] == old(p[j])
    {
      p[lo + i] := src[i];
    }
  }
}
