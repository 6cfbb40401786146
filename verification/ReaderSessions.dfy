/** The runs of the object in Reader.dfy are the histories of ReaderRuns.dfy, so what is proved there of
    every history holds of every Reader between two calls. */
module ReaderSessions {
  import opened Common
  import opened Bytes
  import opened HealthTests
  import M = ReaderModel
  import opened ReaderInvariants
  import opened ReaderRuns
  import R = Reader

  /** A Reader between two public calls. */
  ghost predicate InUse(r: R.Reader)
    reads r, r.h, r.health, r.block, r.buf
  {
    r.Valid() && r.BufferClear() && Between(r.c, r.Abs())
  }

  /** One public call, on a buffer of its own for a read. */
  method Perform(r: R.Reader, call: Call)
    requires InUse(r)
    modifies r, r.h, r.health, r.buf, r.block
    ensures InUse(r) && r.Abs() == ReaderInvariants.After(r.w, r.c, old(r.Abs()), call)
  {
    hide Health.Valid, M.Read, M.Uint64, M.ForceReseed, M.Reset;
    CallKeeps(r.w, r.c, r.Abs(), call);
    match call
    case DoRead(n) =>
      var p := new byte[n];
      var _, _ := r.Read(p);
    case DoUint64 => var _ := r.Uint64();
    case DoReseed => var _ := r.ForceReseed();
    case DoReset => var _ := r.Reset();
    case DoClose => r.Close();
  }

  lemma HistoryGrows(w: M.World, c: M.Config, calls: seq<Call>, states: seq<M.State>, i: nat, t: M.State)
    requires i < |calls| && History(w, c, calls[..i], states) && CallGives(w, c, states[i], calls[i], t)
    ensures History(w, c, calls[..i + 1], states + [t])
  {
    var more, after := calls[..i + 1], states + [t];
    forall k | 0 <= k < i + 1 ensures CallAt(w, c, more, after, k) {
      if k < i { assert CallAt(w, c, calls[..i], states, k); }
    }
  }

  /** New and any sequence of public calls after it. */
  method Session(w: M.World, c: M.Config, cutoffs: Cutoffs, calls: seq<Call>)
    returns (r: R.Reader?, ghost states: seq<M.State>)
    requires M.ValidConfig(c) && R.JudgesLike(c.judge, cutoffs)
    ensures r == null <==> M.New(w, c).out.Fail?
    ensures r != null ==> InUse(r) && r.w == w && r.c == c
    ensures r != null ==> History(w, c, calls, states) && r.Abs() == states[|calls|]
  {
    hide Health.Valid, M.New, R.Reader.Valid, R.Reader.BufferClear, ReaderInvariants.After;
    states := [];
    var e;
    r, e := R.Reader.New(w, c, cutoffs);
    if r == null { return; }
    NewKeeps(w, c);
    states := [r.Abs()];
    for i := 0 to |calls|
      invariant fresh(r.Parts()) && InUse(r) && r.w == w && r.c == c
      invariant |states| == i + 1 && History(w, c, calls[..i], states) && r.Abs() == states[i]
    {
      Perform(r, calls[i]);
      HistoryGrows(w, c, calls, states, i, r.Abs());
      states := states + [r.Abs()];
    }
    assert calls[..|calls|] == calls;
  }
}
