/** The invariants of ReaderInvariants.dfy over every sequence of public calls on a Reader that New
    returned, and what sticks: errors until Reset, closing for good. */
module ReaderRuns {
  import opened Common
  import opened Bytes
  import opened Chunked
  import opened ReaderModel
  import opened ReaderInvariants

  /** states[i] is the state after the first i calls on a new Reader. */
  ghost predicate History(w: World, c: Config, calls: seq<Call>, states: seq<State>) {
    && ValidConfig(c) && New(w, c).out.Ok?
    && |states| == |calls| + 1 && states[0] == New(w, c).s
    && forall i :: 0 <= i < |calls| ==> CallAt(w, c, calls, states, i)
  }

  ghost predicate CallAt(w: World, c: Config, calls: seq<Call>, states: seq<State>, i: nat)
    requires ValidConfig(c) && i < |calls| && i + 1 < |states|
  {
    CallGives(w, c, states[i], calls[i], states[i + 1])
  }

  ghost predicate CallGives(w: World, c: Config, s: State, call: Call, t: State)
    requires ValidConfig(c)
  {
    Usable(c, s) && t == After(w, c, s, call)
  }

  lemma CallGivesKeeps(w: World, c: Config, s: State, call: Call, t: State)
    requires ValidConfig(c) && Between(c, s) && CallGives(w, c, s, call, t)
    ensures Between(c, t)
  {
    CallKeeps(w, c, s, call);
  }

  lemma StepBetween(w: World, c: Config, calls: seq<Call>, states: seq<State>, i: nat)
    requires History(w, c, calls, states) && i < |calls| && Between(c, states[i])
    ensures Between(c, states[i + 1])
  {
    assert CallAt(w, c, calls, states, i);
    CallGivesKeeps(w, c, states[i], calls[i], states[i + 1]);
  }

  lemma {:induction false} AlwaysBetween(w: World, c: Config, calls: seq<Call>, states: seq<State>, i: nat)
    requires History(w, c, calls, states) && i < |states|
    ensures Between(c, states[i])
  {
    if i == 0 {
      NewKeeps(w, c);
    } else {
      AlwaysBetween(w, c, calls, states, i - 1);
      StepBetween(w, c, calls, states, i - 1);
    }
  }

  /** After every call, failed or not: the workers run if and only if the Reader is persistent, open and
      without an error, and no sample was ever taken while they were not running. */
  lemma WorkersFollowState(w: World, c: Config, calls: seq<Call>, states: seq<State>, i: nat)
    requires History(w, c, calls, states) && i < |states|
    ensures var s := states[i];
      (s.running <==> c.persistent && s.err.None? && !s.closed) && s.idle == 0
  {
    AlwaysBetween(w, c, calls, states, i);
  }

  /** After every call on a ModeDRBG Reader: the position stays within the interval, and so within a
      64-bit int however large the interval; the current key has produced exactly since bytes; and the
      bytes returned are covered by whole intervals of the earlier seeds and since bytes of the last. */
  lemma ByteBudget(w: World, c: Config, calls: seq<Call>, states: seq<State>, i: nat)
    requires History(w, c, calls, states) && i < |states| && c.mode.ModeDrbg?
    ensures var s := states[i];
      && 0 <= s.since <= c.interval <= MAX_INT
      && (!s.closed ==> s.gen.Some? && s.seeds >= 1 && Drawn(s.gen.value.asked) == s.since)
      && (s.seeds >= 1 ==> s.bytes <= (s.seeds - 1) * c.interval + s.since)
  {
    AlwaysBetween(w, c, calls, states, i);
    var s := states[i];
    if s.seeds >= 1 { AllowanceFormula(c.interval, s.seeds, s.since); }
  }

  /** Handed-out bytes of the block are gone, and closing wipes everything and drops the generator. */
  lemma NothingLingers(w: World, c: Config, calls: seq<Call>, states: seq<State>, i: nat)
    requires History(w, c, calls, states) && i < |states|
    ensures var s := states[i];
      && s.blockN <= 64 == |s.block| && s.block[..64 - s.blockN] == Zeros(64 - s.blockN)
      && (s.closed ==> s.gen.None? && s.chain == Zeros(32) && s.block == Zeros(64) && s.blockN == 0)
  {
    AlwaysBetween(w, c, calls, states, i);
  }

  // ---- what sticks ----

  /** A failed source: the call changes nothing at all. */
  lemma FailedCall(w: World, c: Config, s: State, call: Call, t: State)
    requires ValidConfig(c) && CallGives(w, c, s, call, t)
    requires s.err.Some? && !s.closed && !call.DoReset? && !call.DoClose?
    ensures t == s
  {}

  /** Once a read or reseed has failed, and until Reset or Close, every call leaves the Reader as it
      is and every read, whatever its size, and every reseed reports that same error. */
  lemma {:induction false} ErrorSticks(w: World, c: Config, calls: seq<Call>, states: seq<State>, i: nat, j: nat)
    requires History(w, c, calls, states) && i <= j < |states|
    requires states[i].err.Some? && !states[i].closed
    requires forall k :: i <= k < j ==> !calls[k].DoReset? && !calls[k].DoClose?
    ensures states[j] == states[i] && Usable(c, states[j])
    ensures forall n :: Read(w, c, states[j], n).out == Fail(states[i].err.value)
    ensures ForceReseed(w, c, states[j]).out == Fail(states[i].err.value)
    ensures Uint64(w, c, states[j]).out == Fail(states[i].err.value)
  {
    AlwaysBetween(w, c, calls, states, j);
    if i < j {
      ErrorSticks(w, c, calls, states, i, j - 1);
      assert CallAt(w, c, calls, states, j - 1);
      FailedCall(w, c, states[j - 1], calls[j - 1], states[j]);
    }
  }

  /** An open Reader remembers exactly the error its last read, word or reseed reported, so that
      ErrorSticks applies from then on. */
  lemma FailureIsRecorded(w: World, c: Config, s: State, n: nat)
    requires ValidConfig(c) && Between(c, s) && !s.closed
    ensures Recorded(Read(w, c, s, n)) && Recorded(Uint64(w, c, s))
  {
    if s.err.None? {
      if n > 0 { ReadByModeKeeps(w, c, s, n); }
      ReadByModeKeeps(w, c, s, 8);
      if c.mode.ModeDrbg? && c.interval >= 8 { RefreshForWordKeeps(w, c, s); }
    }
  }

  lemma ReseedFailureIsRecorded(w: World, c: Config, s: State)
    requires ValidConfig(c) && Between(c, s) && !s.closed
    ensures Recorded(ForceReseed(w, c, s)) && Recorded(Reset(w, c, s))
  {
    if s.err.None? && c.mode.ModeDrbg? { ReseedKeeps(w, c, s, 0); }
    var s1 := s.(err := None, blockN := 0, block := Zeros(64), trace := [], running := s.running || c.persistent);
    assert Zeros(64)[..64] == Zeros(64);
    StartKeeps(w, c, s1);
  }

  ghost predicate Recorded<T>(r: Result<T>) {
    r.s.err == match r.out { case Fail(e) => Some(e) case Ok(_) => None }
  }

  lemma ClosedCall(w: World, c: Config, s: State, call: Call, t: State)
    requires ValidConfig(c) && CallGives(w, c, s, call, t) && s.closed
    ensures t == s
  {}

  /** Closing is final. */
  lemma {:induction false} ClosedForGood(w: World, c: Config, calls: seq<Call>, states: seq<State>, i: nat, j: nat)
    requires History(w, c, calls, states) && i <= j < |states| && states[i].closed
    ensures states[j] == states[i] && Usable(c, states[j])
    ensures forall n :: Read(w, c, states[j], n).out == Fail(Closed)
    ensures Reset(w, c, states[j]).out == Fail(Closed) && ForceReseed(w, c, states[j]).out == Fail(Closed)
  {
    AlwaysBetween(w, c, calls, states, j);
    if i < j {
      ClosedForGood(w, c, calls, states, i, j - 1);
      assert CallAt(w, c, calls, states, j - 1);
      ClosedCall(w, c, states[j - 1], calls[j - 1], states[j]);
    }
  }
}
