/** Filling a request of n bytes chunk by chunk from a supply that is readied before every chunk: the
    common loop of the reads in reader.go, over any kind of state. */
module Chunked {
  import opened Common

  datatype Outcome<+T, +E> = Ok(value: T) | Fail(error: E)

  /** What an operation leaves behind and what it returns. */
  datatype Step<+S, +T, +E> = Step(s: S, out: Outcome<T, E>)

  /** ready prepares a state for the next chunk, room says how many bytes it can then give, and give
      takes k of them; ok describes the states a supply works in. */
  datatype Supply<!S, !E> = Supply(
    ok: S -> bool,
    ready: S --> Step<S, (), E>,
    room: S -> nat,
    give: (S, nat) --> (seq<byte>, S))

  ghost predicate Works<S(!new), E>(p: Supply<S, E>) {
    && (forall s :: p.ok(s) ==> Readies(p, s))
    && (forall s, k: nat :: p.ok(s) && k <= p.room(s) ==> Gives(p, s, k))
  }

  ghost predicate Readies<S, E>(p: Supply<S, E>, s: S) {
    p.ready.requires(s) && (p.ready(s).out.Ok? ==> p.ok(p.ready(s).s) && p.room(p.ready(s).s) > 0)
  }

  ghost predicate Gives<S, E>(p: Supply<S, E>, s: S, k: nat) {
    p.give.requires(s, k) && |p.give(s, k).0| == k && p.ok(p.give(s, k).1)
  }

  function Prepend<S, E>(b: seq<byte>, r: Step<S, seq<byte>, E>): Step<S, seq<byte>, E> {
    match r.out
    case Ok(rest) => Step(r.s, Ok(b + rest))
    case Fail(_) => r
  }

  /** All n bytes, or the failure of the readying that failed. */
  ghost function Chunks<S(!new), E>(p: Supply<S, E>, s: S, n: nat): (r: Step<S, seq<byte>, E>)
    requires Works(p) && p.ok(s)
    ensures r.out.Ok? ==> |r.out.value| == n && p.ok(r.s)
    decreases n
  {
    if n == 0 then Step(s, Ok([]))
    else
      assert Readies(p, s);
      var r := p.ready(s);
      match r.out
      case Fail(e) => Step(r.s, Fail(e))
      case Ok(_) =>
        var k := Min(n, p.room(r.s));
        assert Gives(p, r.s, k);
        var (b, next) := p.give(r.s, k);
        Prepend(b, Chunks(p, next, n - k))
  }

  lemma ChunksUnfold<S(!new), E>(p: Supply<S, E>, s: S, n: nat)
    requires Works(p) && p.ok(s) && n > 0
    ensures p.ready.requires(s)
    ensures var r := p.ready(s);
      match r.out
      case Fail(e) => Chunks(p, s, n) == Step(r.s, Fail(e))
      case Ok(_) =>
        var k := Min(n, p.room(r.s));
        && k > 0 && p.give.requires(r.s, k) && p.ok(p.give(r.s, k).1)
        && Chunks(p, s, n) == Prepend(p.give(r.s, k).0, Chunks(p, p.give(r.s, k).1, n - k))
  {
    assert Readies(p, s);
    var r := p.ready(s);
    if r.out.Ok? { assert Gives(p, r.s, Min(n, p.room(r.s))); }
  }

  lemma PrependNothing<S, E>(r: Step<S, seq<byte>, E>)
    ensures Prepend([], r) == r
  {
    if r.out.Ok? { assert [] + r.out.value == r.out.value; }
  }

  lemma PrependTwice<S, E>(a: seq<byte>, b: seq<byte>, r: Step<S, seq<byte>, E>)
    ensures Prepend(a, Prepend(b, r)) == Prepend(a + b, r)
  {
    if r.out.Ok? { assert a + (b + r.out.value) == (a + b) + r.out.value; }
  }

  // ---- an invariant that counts the bytes given ----

  /** inv(s, d) holds after d bytes of the request, and bad of the state a failed readying leaves. */
  ghost predicate Keeps<S(!new), E>(p: Supply<S, E>, inv: (S, nat) -> bool, bad: S -> bool) {
    && (forall s, d :: p.ok(s) && inv(s, d) ==> ReadyKeeps(p, inv, bad, s, d))
    && (forall s, d, k: nat :: p.ok(s) && inv(s, d) && k <= p.room(s) ==> GiveKeeps(p, inv, s, d, k))
  }

  ghost predicate ReadyKeeps<S, E>(p: Supply<S, E>, inv: (S, nat) -> bool, bad: S -> bool, s: S, d: nat) {
    p.ready.requires(s) && if p.ready(s).out.Ok? then inv(p.ready(s).s, d) else bad(p.ready(s).s)
  }

  ghost predicate GiveKeeps<S, E>(p: Supply<S, E>, inv: (S, nat) -> bool, s: S, d: nat, k: nat) {
    p.give.requires(s, k) && inv(p.give(s, k).1, d + k)
  }

  lemma {:induction false} ChunksKeep<S(!new), E>(p: Supply<S, E>, inv: (S, nat) -> bool, bad: S -> bool, s: S, d: nat, n: nat)
    requires Works(p) && Keeps(p, inv, bad) && p.ok(s) && inv(s, d)
    ensures var r := Chunks(p, s, n); if r.out.Ok? then inv(r.s, d + n) else bad(r.s)
    decreases n
  {
    if n > 0 {
      assert Readies(p, s) && ReadyKeeps(p, inv, bad, s, d);
      var r := p.ready(s);
      if r.out.Ok? {
        var k := Min(n, p.room(r.s));
        assert Gives(p, r.s, k) && GiveKeeps(p, inv, r.s, d, k);
        ChunksKeep(p, inv, bad, p.give(r.s, k).1, d + k, n - k);
      }
    }
  }

  // ---- the bytes are one stream ----

  /** n bytes of the stream f from position t on. */
  function Piece(f: nat -> byte, t: nat, n: nat): (r: seq<byte>)
    ensures |r| == n
  {
    seq<byte>(n, i requires 0 <= i < n => f(t + i))
  }

  lemma PieceSplits(f: nat -> byte, t: nat, n: nat, m: nat)
    ensures Piece(f, t, n) + Piece(f, t + n, m) == Piece(f, t, n + m)
  {}

  /** on(s, t): the next byte a state gives is byte t of f. Readying does not move it, and giving k
      bytes gives the next k and moves it by k. */
  ghost predicate Follows<S(!new), E>(p: Supply<S, E>, on: (S, nat) -> bool, f: nat -> byte) {
    && (forall s, t :: p.ok(s) && on(s, t) ==> ReadyFollows(p, on, s, t))
    && (forall s, t, k: nat :: p.ok(s) && on(s, t) && k <= p.room(s) ==> GiveFollows(p, on, f, s, t, k))
  }

  ghost predicate ReadyFollows<S, E>(p: Supply<S, E>, on: (S, nat) -> bool, s: S, t: nat) {
    p.ready.requires(s) && (p.ready(s).out.Ok? ==> on(p.ready(s).s, t))
  }

  ghost predicate GiveFollows<S, E>(p: Supply<S, E>, on: (S, nat) -> bool, f: nat -> byte, s: S, t: nat, k: nat) {
    p.give.requires(s, k) && p.give(s, k).0 == Piece(f, t, k) && on(p.give(s, k).1, t + k)
  }

  /** A request that succeeds returns the next n bytes of the stream, whatever the chunks. */
  lemma {:induction false} ChunksFollow<S(!new), E>(p: Supply<S, E>, on: (S, nat) -> bool, f: nat -> byte, s: S, t: nat, n: nat)
    requires Works(p) && Follows(p, on, f) && p.ok(s) && on(s, t)
    requires Chunks(p, s, n).out.Ok?
    ensures var r := Chunks(p, s, n); r.out.value == Piece(f, t, n) && on(r.s, t + n)
    decreases n
  {
    if n > 0 {
      assert Readies(p, s) && ReadyFollows(p, on, s, t);
      var r := p.ready(s);
      var k := Min(n, p.room(r.s));
      assert Gives(p, r.s, k) && GiveFollows(p, on, f, r.s, t, k);
      ChunksFollow(p, on, f, p.give(r.s, k).1, t + k, n - k);
      PieceSplits(f, t, k, n - k);
    }
  }

  /** A nonempty request that succeeds ends with a chunk given, not with a readying. */
  lemma {:induction false} ChunksEndWithGive<S(!new), E>(p: Supply<S, E>, s: S, n: nat) returns (last: S, k: nat)
    requires Works(p) && p.ok(s) && n > 0 && Chunks(p, s, n).out.Ok?
    ensures p.ok(last) && 0 < k <= p.room(last) && p.give.requires(last, k)
    ensures Chunks(p, s, n).s == p.give(last, k).1
    decreases n
  {
    assert Readies(p, s);
    last := p.ready(s).s;
    k := Min(n, p.room(last));
    assert Gives(p, last, k);
    if k < n {
      last, k := ChunksEndWithGive(p, p.give(last, k).1, n - k);
    }
  }
}
