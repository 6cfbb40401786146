/** What the calls on the harvester of Harvester.dfy come to: every Start, Stop, Close and Sample that
    returns has had its effect, whatever the workers did meanwhile, and each of them can return. */
module HarvesterCalls {
  import opened Common
  import opened Harvester

  predicate IsLifecycleCall(a: Action) {
    a.StartCall? || a.StopCall? || a.CloseCall?
  }

  ghost predicate NoLifecycleCall(actions: seq<Action>) {
    forall i :: 0 <= i < |actions| ==> !IsLifecycleCall(actions[i])
  }

  // ---- the effect of Start, Stop and Close ----

  /** Whether the workers will run once the mutex is free again. */
  function WillRun(s: State): bool {
    if s.life.Free? then s.running else Starting(s.life)
  }

  function WillBeClosed(s: State): bool {
    match s.life
    case StopFlag(closing) => s.closed || closing
    case StopWait(closing) => s.closed || closing
    case StopDone(closing) => s.closed || closing
    case _ => s.closed
  }

  lemma OutcomeIsSettled(s: State, a: Action)
    requires Inv(s) && Enabled(s, a) && !IsLifecycleCall(a)
    ensures WillRun(Do(s, a)) == WillRun(s) && WillBeClosed(Do(s, a)) == WillBeClosed(s)
  {}

  lemma {:induction false} CallReturns(s: State, actions: seq<Action>)
    requires Inv(s) && Run(s, actions) && NoLifecycleCall(actions) && Final(s, actions).life.Free?
    ensures var t := Final(s, actions); Inv(t) && t.running == WillRun(s) && t.closed == WillBeClosed(s)
    decreases |actions|
  {
    if actions != [] {
      StepKeepsInv(s, actions[0]);
      OutcomeIsSettled(s, actions[0]);
      CallReturns(Do(s, actions[0]), actions[1..]);
    }
  }

  /** One of the steps is the load of prev at the end of a Start, when the given number of increments
      had landed. */
  ghost predicate LoadsPrev(s: State, actions: seq<Action>, total: nat)
    requires Run(s, actions)
    decreases |actions|
  {
    actions != [] &&
    ((s.life.StartPrev? && actions[0].LifeStep? && s.total == total) || LoadsPrev(Do(s, actions[0]), actions[1..], total))
  }

  /** Before the load of prev. */
  predicate BeforeLoad(l: Lifecycle) {
    Starting(l) && !l.StartRunning?
  }

  lemma {:induction false} MarkIsLoaded(s: State, actions: seq<Action>)
    requires Inv(s) && Run(s, actions) && NoLifecycleCall(actions) && Final(s, actions).life.Free?
    ensures var t := Final(s, actions); if BeforeLoad(s.life) then LoadsPrev(s, actions, t.mark) else t.mark == s.mark
    decreases |actions|
  {
    if actions != [] {
      StepKeepsInv(s, actions[0]);
      MarkIsLoaded(Do(s, actions[0]), actions[1..]);
    }
  }

  /** A Start that returns on an open harvester leaves it running, with every worker announced; if it
      was stopped before, increments are counted from the load of prev. On a closed one it changes
      nothing. */
  lemma StartStarts(s: State, rest: seq<Action>)
    requires Inv(s) && s.life.Free? && Run(s, [StartCall] + rest)
    requires NoLifecycleCall(rest) && Final(s, [StartCall] + rest).life.Free?
    ensures var t := Final(s, [StartCall] + rest);
      && t.running == !s.closed && t.closed == s.closed
      && (t.running ==> !t.stop && t.wg == |t.workers| == |s.workers| && AllRacing(t.workers))
      && (t.running && !s.running ==> LoadsPrev(s, [StartCall] + rest, t.mark))
      && (!t.running ==> AllDead(t.workers))
  {
    var actions := [StartCall] + rest;
    assert actions[1..] == rest;
    StepKeepsInv(s, StartCall);
    RunKeepsInv(s, actions);
    CallReturns(Do(s, StartCall), rest);
    MarkIsLoaded(Do(s, StartCall), rest);
  }

  /** A Stop that returns leaves no worker. */
  lemma StopStops(s: State, rest: seq<Action>)
    requires Inv(s) && s.life.Free? && Run(s, [StopCall] + rest)
    requires NoLifecycleCall(rest) && Final(s, [StopCall] + rest).life.Free?
    ensures var t := Final(s, [StopCall] + rest);
      !t.running && t.closed == s.closed && t.wg == 0 && AllDead(t.workers)
  {
    assert ([StopCall] + rest)[1..] == rest;
    StepKeepsInv(s, StopCall);
    CallReturns(Do(s, StopCall), rest);
  }

  /** A Close that returns leaves no worker and the harvester closed, so that ClosedForever applies. */
  lemma CloseCloses(s: State, rest: seq<Action>)
    requires Inv(s) && s.life.Free? && Run(s, [CloseCall] + rest)
    requires NoLifecycleCall(rest) && Final(s, [CloseCall] + rest).life.Free?
    ensures var t := Final(s, [CloseCall] + rest);
      !t.running && t.closed && t.wg == 0 && AllDead(t.workers)
  {
    assert ([CloseCall] + rest)[1..] == rest;
    StepKeepsInv(s, CloseCall);
    CallReturns(Do(s, CloseCall), rest);
  }

  // ---- every call can return ----

  /** How far the holder of the mutex is from releasing it. */
  function Phase(l: Lifecycle): nat {
    match l
    case Free => 0
    case StartRunning => 1
    case StartPrev => 2
    case StartWait => 3
    case StartSpawn(_) => 4
    case StartAdd => 5
    case StartReady => 6
    case StartClear => 7
    case StopDone(_) => 1
    case StopWait(_) => 2
    case StopFlag(_) => 3
  }

  /** What is left to do within a phase. */
  function Left(s: State): int {
    match s.life
    case StartSpawn(k) => |s.workers| - k
    case StartWait => |s.workers| - s.ready
    case StopWait(_) => Sum(s.workers, RANKS)
    case _ => 0
  }

  /** One step more brings the release of the mutex closer. */
  ghost predicate Closer(s: State, t: State) {
    Phase(t.life) < Phase(s.life) || (Phase(t.life) == Phase(s.life) && 0 <= Left(t) < Left(s))
  }

  lemma AdvanceStartWait(s: State) returns (i: nat)
    requires Inv(s) && s.life.StartWait? && s.ready < |s.workers|
    ensures Enabled(s, WorkerStep(i)) && Closer(s, Do(s, WorkerStep(i)))
  {
    WaitingMakesProgress(s);
    i :| Enabled(s, WorkerStep(i)) && Do(s, WorkerStep(i)).ready == s.ready + 1;
    StepKeepsInv(s, WorkerStep(i));
    AnnouncedCounts(Do(s, WorkerStep(i)).workers);
  }

  lemma AdvanceStopWait(s: State) returns (i: nat)
    requires Inv(s) && s.life.StopWait? && s.wg != 0
    ensures Enabled(s, WorkerStep(i)) && Closer(s, Do(s, WorkerStep(i)))
  {
    WaitingMakesProgress(s);
    i :| Enabled(s, WorkerStep(i));
    StoppingStep(s, WorkerStep(i));
    assert WorkerSteps([WorkerStep(i)]) == 1;
  }

  lemma Advance(s: State) returns (a: Action)
    requires Inv(s) && !s.life.Free?
    ensures 0 <= Left(s) && Enabled(s, a) && (a.LifeStep? || a.WorkerStep?) && Closer(s, Do(s, a))
  {
    AnnouncedCounts(s.workers);
    if s.life.StartWait? && s.ready < |s.workers| {
      var i := AdvanceStartWait(s);
      a := WorkerStep(i);
    } else if s.life.StopWait? && s.wg != 0 {
      var i := AdvanceStopWait(s);
      a := WorkerStep(i);
    } else {
      a := LifeStep;
    }
  }

  /** From every reachable state the holder of the mutex can release it, helped by worker steps only. */
  lemma {:induction false} Finish(s: State) returns (actions: seq<Action>)
    requires Inv(s)
    ensures Run(s, actions) && NoLifecycleCall(actions) && Final(s, actions).life.Free?
    ensures forall i :: 0 <= i < |actions| ==> !actions[i].SampleCall?
    decreases Phase(s.life), Left(s)
  {
    if s.life.Free? { return []; }
    var a := Advance(s);
    StepKeepsInv(s, a);
    var rest := Finish(Do(s, a));
    actions := [a] + rest;
    assert actions[1..] == rest;
  }

  /** Every lifecycle call that can be made can return. */
  lemma CallCanReturn(s: State, call: Action) returns (rest: seq<Action>)
    requires Inv(s) && IsLifecycleCall(call) && Enabled(s, call)
    ensures Run(s, [call] + rest) && NoLifecycleCall(rest) && Final(s, [call] + rest).life.Free?
  {
    StepKeepsInv(s, call);
    rest := Finish(Do(s, call));
    assert ([call] + rest)[1..] == rest;
  }

  /** When the mutex is free the calls can be made, a Start or a Sample only when no sample is being
      taken; and one that is being taken can always go on. */
  lemma CallsAreEnabled(s: State)
    requires Inv(s)
    ensures s.life.Free? ==> Enabled(s, StopCall) && Enabled(s, CloseCall)
    ensures s.life.Free? && s.sampler.Idle? ==> Enabled(s, StartCall) && Enabled(s, SampleCall)
    ensures !s.sampler.Idle? ==> Enabled(s, SampleStep)
  {}

  // ---- the worker id ----

  /** The id of the worker that stored its id last during the run. */
  ghost function LastStore(s: State, actions: seq<Action>): Option<nat>
    requires Run(s, actions)
    decreases |actions|
  {
    if actions == [] then None
    else
      var later := LastStore(Do(s, actions[0]), actions[1..]);
      if later.None? && actions[0].WorkerStep? && s.workers[actions[0].id].Storing? then Some(actions[0].id) else later
  }

  /** The shared id is that of the worker that stored last. */
  lemma {:induction false} LastIsLastStore(s: State, actions: seq<Action>)
    requires Run(s, actions)
    ensures Final(s, actions).last == match LastStore(s, actions) { case Some(i) => i case None => s.last }
    decreases |actions|
  {
    if actions != [] { LastIsLastStore(Do(s, actions[0]), actions[1..]); }
  }

  // ---- the effect of Sample ----

  ghost predicate NoSampleOrStart(actions: seq<Action>) {
    forall i :: 0 <= i < |actions| ==> !actions[i].SampleCall? && !actions[i].StartCall?
  }

  /** One of the steps is the load of the worker id at the end of a sample, when it was the given id. */
  ghost predicate LoadsId(s: State, actions: seq<Action>, id: nat)
    requires Run(s, actions)
    decreases |actions|
  {
    actions != [] &&
    ((s.sampler.Changed? && actions[0].SampleStep? && s.last == id) || LoadsId(Do(s, actions[0]), actions[1..], id))
  }

  /** One of the steps is a load of the counter by the sampler, when the given number of increments had
      landed. */
  ghost predicate LoadsCounter(s: State, actions: seq<Action>, total: nat)
    requires Run(s, actions)
    decreases |actions|
  {
    actions != [] &&
    ((s.sampler.Polling? && actions[0].SampleStep? && s.total == total) || LoadsCounter(Do(s, actions[0]), actions[1..], total))
  }

  /** The run completes a sample, after polls polls of an unchanged counter. */
  ghost predicate Reports(s: State, polls: nat, actions: seq<Action>)
    requires Run(s, actions)
  {
    var t := Final(s, actions);
    && t.sampler.Idle? && |t.samples| == |s.samples| + 1 && t.samples[..|s.samples|] == s.samples
    && s.seen <= t.seen
    && var x := t.samples[|s.samples|];
       x.delta == (t.seen - s.seen) % DELTA && x.polls == polls % 256 && LoadsId(s, actions, x.id)
  }

  lemma {:induction false} IdleKeepsSamples(s: State, actions: seq<Action>)
    requires Inv(s) && Run(s, actions) && NoSampleOrStart(actions) && s.sampler.Idle? && !Starting(s.life)
    ensures var t := Final(s, actions);
      t.sampler.Idle? && t.samples == s.samples && t.seen == s.seen && SampleSteps(actions) == 0 && s.total <= t.total
    decreases |actions|
  {
    if actions != [] {
      StepKeepsInv(s, actions[0]);
      IdleKeepsSamples(Do(s, actions[0]), actions[1..]);
    }
  }

  /** The polls of a sample still being taken, when the rest of it takes the given number of steps. */
  function PollsAtEnd(sampler: Sampler, steps: nat): int {
    match sampler
    case Idle => 0
    case Polling(polls) => polls + steps - 2
    case Changed(polls, _, _) => polls
  }

  lemma SampleGoesOn(s: State, a: Action)
    requires Inv(s) && Enabled(s, a) && !s.sampler.Idle? && !(s.sampler.Changed? && a.SampleStep?)
    requires !a.SampleCall? && !a.StartCall?
    ensures var t := Do(s, a);
      && !t.sampler.Idle? && t.samples == s.samples && t.seen == s.seen
      && (if a.SampleStep? then s.sampler.Polling?
                                && (t.sampler.Changed? ==> t.sampler.polls == s.sampler.polls && t.sampler.total == s.total)
                                && (t.sampler.Polling? ==> t.sampler.polls == s.sampler.polls + 1)
          else t.sampler == s.sampler)
  {}

  lemma SampleEnds(s: State)
    requires Inv(s) && s.sampler.Changed?
    ensures var t := Do(s, SampleStep);
      && t.sampler.Idle? && !Starting(t.life) && |t.samples| == |s.samples| + 1 && t.samples[..|s.samples|] == s.samples
      && s.seen <= t.seen == s.sampler.total
      && t.samples[|s.samples|] == Sample((t.seen - s.seen) % DELTA, s.sampler.polls % 256, s.last)
  {
    DeltaField(s.seen, s.sampler.total);
  }

  lemma {:induction false} SampleCompletes(s: State, actions: seq<Action>)
    requires Inv(s) && Run(s, actions) && NoSampleOrStart(actions)
    requires !s.sampler.Idle? && Final(s, actions).sampler.Idle?
    ensures s.sampler.Changed? ==> SampleSteps(actions) == 1
    ensures s.sampler.Polling? ==> SampleSteps(actions) >= 2
    ensures Reports(s, PollsAtEnd(s.sampler, SampleSteps(actions)), actions)
    ensures var seen := Final(s, actions).seen;
      if s.sampler.Changed? then seen == s.sampler.total else LoadsCounter(s, actions, seen)
    decreases |actions|
  {
    hide Inv, Do;
    var a, rest := actions[0], actions[1..];
    StepKeepsInv(s, a);
    RunKeepsInv(Do(s, a), rest);
    if s.sampler.Changed? && a.SampleStep? {
      SampleEnds(s);
      IdleKeepsSamples(Do(s, a), rest);
    } else {
      SampleGoesOn(s, a);
      SampleCompletes(Do(s, a), rest);
    }
  }

  /** A Sample that returns has added one sample: its delta is the number of increments between the
      last load of the counter before it and its own last load, mod 2^48; its polls are the loads it
      made in vain, mod 256; its id is what its load of the id found. */
  lemma SampleSamples(s: State, rest: seq<Action>)
    requires Inv(s) && s.sampler.Idle? && Run(s, [SampleCall] + rest)
    requires NoSampleOrStart(rest) && Final(s, [SampleCall] + rest).sampler.Idle?
    ensures SampleSteps(rest) >= 2 && Reports(s, SampleSteps(rest) - 2, [SampleCall] + rest)
    ensures LoadsCounter(s, [SampleCall] + rest, Final(s, [SampleCall] + rest).seen)
  {
    assert ([SampleCall] + rest)[1..] == rest;
    StepKeepsInv(s, SampleCall);
    SampleCompletes(Do(s, SampleCall), rest);
  }
}
