/** The racing workers, the lifecycle and the sampler of harvester.go (atomic source) as a state
    machine: every step is one atomic access, and any enabled step may come next. */
module Harvester {
  import opened Common

  const WORD: nat := 0x1_0000_0000_0000_0000
  const DELTA: nat := 0x1_0000_0000_0000
  const MAX_POLLS: nat := 1048576

  // ---- states ----

  /** Where a worker goroutine is; Dead also stands for one that was never started. */
  datatype Worker =
    | Dead
    | Spawned   // before ready.Add
    | Check     // before stop.Load
    | Adding    // before counter.Add
    | Storing   // before last.Store
    | Exiting   // before wg.Done

  /** What the holder of the lifecycle mutex does next. */
  datatype Lifecycle =
    | Free
    | StartClear | StartReady | StartAdd | StartSpawn(next: nat) | StartWait | StartPrev | StartRunning
    | StopFlag(closing: bool) | StopWait(closing: bool) | StopDone(closing: bool)

  datatype Sampler =
    | Idle
    | Polling(polls: nat)
    | Changed(polls: nat, v: nat, total: nat)  // v is the counter as loaded when total increments had landed

  /** The three fields a raw sample packs. */
  datatype Sample = Sample(delta: nat, polls: nat, id: nat)

  datatype State = State(
    counter: nat, last: nat, stop: bool, ready: int, wg: int,
    prev: nat, running: bool, closed: bool,
    life: Lifecycle, workers: seq<Worker>, sampler: Sampler,
    samples: seq<Sample>,  // every sample returned so far
    total: nat,            // worker increments so far, unbounded
    mark: nat,             // total when Start last loaded prev
    seen: nat,             // total when prev was last loaded
    deltas: nat)           // the delta fields returned since mark, added up

  function Initial(w: nat): State {
    State(0, 0, false, 0, 0, 0, false, false, Free, seq(w, _ => Dead), Idle, [], 0, 0, 0, 0)
  }

  // ---- steps ----

  datatype Action = StartCall | StopCall | CloseCall | LifeStep | WorkerStep(id: nat) | SampleCall | SampleStep

  predicate Starting(l: Lifecycle) {
    l.StartClear? || l.StartReady? || l.StartAdd? || l.StartSpawn? || l.StartWait? || l.StartPrev? || l.StartRunning?
  }

  /** Callers take the mutex only when it is free. One consumer samples, and never during a Start. */
  predicate Enabled(s: State, a: Action) {
    match a
    case StartCall => s.life.Free? && s.sampler.Idle?
    case StopCall => s.life.Free?
    case CloseCall => s.life.Free?
    case LifeStep => !s.life.Free? && (s.life.StopWait? ==> s.wg == 0)
    case WorkerStep(i) => i < |s.workers| && !s.workers[i].Dead?
    case SampleCall => s.sampler.Idle? && !Starting(s.life)
    case SampleStep => !s.sampler.Idle?
  }

  function Do(s: State, a: Action): State
    requires Enabled(s, a)
  {
    match a
    case StartCall => if s.running || s.closed then s else s.(life := StartClear)
    case StopCall => if s.running then s.(life := StopFlag(false)) else s
    case CloseCall => if s.running then s.(life := StopFlag(true)) else s.(closed := true)
    case LifeStep => DoLife(s)
    case WorkerStep(i) => DoWorker(s, i)
    case SampleCall => s.(sampler := Polling(0))
    case SampleStep => DoSample(s)
  }

  function DoLife(s: State): State
    requires Enabled(s, LifeStep)
  {
    match s.life
    case StartClear => s.(stop := false, life := StartReady)
    case StartReady => s.(ready := 0, life := StartAdd)
    case StartAdd => s.(wg := s.wg + |s.workers|, life := StartSpawn(0))
    case StartSpawn(k) =>
      if k < |s.workers| then s.(workers := s.workers[k := Spawned], life := StartSpawn(k + 1))
      else s.(life := StartWait)
    case StartWait => if s.ready < |s.workers| then s else s.(life := StartPrev)
    case StartPrev => s.(prev := s.counter, mark := s.total, seen := s.total, deltas := 0, life := StartRunning)
    case StartRunning => s.(running := true, life := Free)
    case StopFlag(c) => s.(stop := true, life := StopWait(c))
    case StopWait(c) => s.(life := StopDone(c))
    case StopDone(c) => s.(running := false, closed := s.closed || c, life := Free)
  }

  function DoWorker(s: State, i: nat): State
    requires Enabled(s, WorkerStep(i))
  {
    match s.workers[i]
    case Spawned => s.(ready := s.ready + 1, workers := s.workers[i := Check])
    case Check => s.(workers := s.workers[i := if s.stop then Exiting else Adding])
    case Adding => s.(counter := (s.counter + 1) % WORD, total := s.total + 1, workers := s.workers[i := Storing])
    case Storing => s.(last := i, workers := s.workers[i := Check])
    case Exiting => s.(wg := s.wg - 1, workers := s.workers[i := Dead])
  }

  function DoSample(s: State): State
    requires Enabled(s, SampleStep)
  {
    match s.sampler
    case Polling(polls) =>
      if s.counter != s.prev || polls >= MAX_POLLS then s.(sampler := Changed(polls, s.counter, s.total))
      else s.(sampler := Polling(polls + 1))
    case Changed(polls, v, total) =>
      var sample := Packed(Difference(v, s.prev), polls, s.last);
      s.(prev := v, seen := total, deltas := s.deltas + sample.delta, samples := s.samples + [sample], sampler := Idle)
  }

  /** Unsigned 64-bit subtraction. */
  function Difference(v: nat, prev: nat): nat {
    (v - prev) % WORD
  }

  /** The fields of the packed sample: the low 48 bits of the difference, the low byte of the polls. */
  function Packed(difference: nat, polls: nat, id: nat): Sample {
    Sample(difference % DELTA, polls % 256, id)
  }

  // ---- counting workers ----

  function Rank(w: Worker): nat {
    match w
    case Dead => 0
    case Exiting => 1
    case Check => 2
    case Storing => 3
    case Adding => 4
    case Spawned => 5
  }

  /** A worker that has been started and has announced itself, and has not left. */
  predicate Racing(w: Worker) {
    w.Check? || w.Adding? || w.Storing?
  }

  function Weight(w: Worker, kind: int): nat {
    if kind == 0 then (if w.Dead? then 0 else 1)          // alive
    else if kind == 1 then (if Racing(w) then 1 else 0)   // announced
    else if kind == 2 then (if w.Adding? then 1 else 0)   // about to increment
    else Rank(w)
  }

  function Sum(ws: seq<Worker>, kind: int): nat {
    if ws == [] then 0 else Sum(ws[..|ws| - 1], kind) + Weight(ws[|ws| - 1], kind)
  }

  const ALIVE := 0
  const ANNOUNCED := 1
  const ARMED := 2
  const RANKS := 3

  lemma {:induction false} SumUpdate(ws: seq<Worker>, i: nat, w: Worker, kind: int)
    requires i < |ws|
    ensures Sum(ws[i := w], kind) == Sum(ws, kind) - Weight(ws[i], kind) + Weight(w, kind)
  {
    var k := |ws| - 1;
    if i < k {
      SumUpdate(ws[..k], i, w, kind);
      assert ws[i := w][..k] == ws[..k][i := w];
    } else {
      assert ws[i := w][..k] == ws[..k];
    }
  }

  lemma {:induction false} SumDead(ws: seq<Worker>, kind: int)
    requires forall i :: 0 <= i < |ws| ==> ws[i].Dead?
    ensures Sum(ws, kind) == 0
  {
    if ws != [] { SumDead(ws[..|ws| - 1], kind); }
  }

  lemma {:induction false} AliveCounts(ws: seq<Worker>)
    ensures Sum(ws, ALIVE) <= |ws|
    ensures Sum(ws, ALIVE) == 0 <==> forall i :: 0 <= i < |ws| ==> ws[i].Dead?
    ensures Sum(ws, ALIVE) == |ws| <==> forall i :: 0 <= i < |ws| ==> !ws[i].Dead?
  {
    if ws != [] {
      var t := ws[..|ws| - 1];
      AliveCounts(t);
      assert forall i :: 0 <= i < |t| ==> t[i] == ws[i];
    }
  }

  lemma {:induction false} AnnouncedCounts(ws: seq<Worker>)
    ensures Sum(ws, ANNOUNCED) <= |ws|
    ensures Sum(ws, ANNOUNCED) == |ws| <==> forall i :: 0 <= i < |ws| ==> Racing(ws[i])
  {
    if ws != [] {
      var t := ws[..|ws| - 1];
      AnnouncedCounts(t);
      assert forall i :: 0 <= i < |t| ==> t[i] == ws[i];
    }
  }

  // ---- the invariant ----

  ghost predicate AllRacing(ws: seq<Worker>) {
    forall i :: 0 <= i < |ws| ==> Racing(ws[i])
  }

  ghost predicate AllDead(ws: seq<Worker>) {
    forall i :: 0 <= i < |ws| ==> ws[i].Dead?
  }

  /** The first k workers have been started, the others not yet. */
  ghost predicate StartedUpTo(ws: seq<Worker>, k: nat) {
    && k <= |ws|
    && (forall i :: 0 <= i < k ==> ws[i].Spawned? || Racing(ws[i]))
    && (forall i :: k <= i < |ws| ==> ws[i].Dead?)
  }

  ghost predicate LifeInv(s: State) {
    match s.life
    case Free =>
      && !(s.running && s.closed)
      && (if s.running then !s.stop && AllRacing(s.workers) && s.wg == |s.workers|
          else AllDead(s.workers) && s.wg == 0)
    case StartClear => !s.running && !s.closed && AllDead(s.workers) && s.wg == 0
    case StartReady => !s.running && !s.closed && AllDead(s.workers) && s.wg == 0 && !s.stop
    case StartAdd => !s.running && !s.closed && AllDead(s.workers) && s.wg == 0 && !s.stop && s.ready == 0
    case StartSpawn(k) =>
      && !s.running && !s.closed && !s.stop && s.wg == |s.workers|
      && StartedUpTo(s.workers, k) && s.ready == Sum(s.workers, ANNOUNCED)
    case StartWait =>
      && !s.running && !s.closed && !s.stop && s.wg == |s.workers|
      && StartedUpTo(s.workers, |s.workers|) && s.ready == Sum(s.workers, ANNOUNCED)
    case StartPrev => !s.running && !s.closed && !s.stop && s.wg == |s.workers| && AllRacing(s.workers)
    case StartRunning => !s.running && !s.closed && !s.stop && s.wg == |s.workers| && AllRacing(s.workers)
    case StopFlag(_) => s.running && !s.closed && !s.stop && s.wg == |s.workers| && AllRacing(s.workers)
    case StopWait(_) =>
      && s.running && !s.closed && s.stop && s.wg == Sum(s.workers, ALIVE)
      && forall i :: 0 <= i < |s.workers| ==> !s.workers[i].Spawned?
    case StopDone(_) => s.running && !s.closed && AllDead(s.workers) && s.wg == 0
  }

  ghost predicate SampleInv(s: State) {
    && s.counter == s.total % WORD
    && s.prev == s.seen % WORD
    && s.mark <= s.seen <= s.total
    && s.deltas % DELTA == (s.seen - s.mark) % DELTA
    && (!s.sampler.Idle? ==> !Starting(s.life))
    && match s.sampler
       case Idle => true
       case Polling(polls) => polls <= MAX_POLLS
       case Changed(polls, v, total) =>
         && polls <= MAX_POLLS
         && v == total % WORD && s.seen <= total <= s.total
         && (v != s.prev || polls == MAX_POLLS)
  }

  ghost predicate IdInv(s: State) {
    && s.last < |s.workers| <= 256
    && forall i :: 0 <= i < |s.samples| ==> s.samples[i].id < |s.workers|
  }

  ghost predicate Inv(s: State) {
    LifeInv(s) && SampleInv(s) && IdInv(s)
  }

  lemma InitialInv(w: nat)
    requires 1 <= w <= 256
    ensures Inv(Initial(w))
  {}

  lemma LifeKeepsLifeInv(s: State)
    requires Inv(s) && Enabled(s, LifeStep)
    ensures LifeInv(DoLife(s))
  {
    AliveCounts(s.workers);
    AnnouncedCounts(s.workers);
    match s.life
    case StartAdd => SumDead(s.workers, ANNOUNCED);
    case StartSpawn(k) => if k < |s.workers| { SumUpdate(s.workers, k, Spawned, ANNOUNCED); }
    case _ =>
  }

  lemma WorkerWhileStarting(s: State, i: nat)
    requires LifeInv(s) && Enabled(s, WorkerStep(i)) && (s.life.StartSpawn? || s.life.StartWait?)
    ensures LifeInv(DoWorker(s, i))
  {
    SumUpdate(s.workers, i, DoWorker(s, i).workers[i], ANNOUNCED);
  }

  lemma WorkerWhileStopping(s: State, i: nat)
    requires LifeInv(s) && Enabled(s, WorkerStep(i)) && s.life.StopWait?
    ensures LifeInv(DoWorker(s, i))
  {
    SumUpdate(s.workers, i, DoWorker(s, i).workers[i], ALIVE);
  }

  lemma WorkerKeepsLifeInv(s: State, i: nat)
    requires LifeInv(s) && Enabled(s, WorkerStep(i))
    ensures LifeInv(DoWorker(s, i))
  {
    match s.life
    case StartSpawn(_) => WorkerWhileStarting(s, i);
    case StartWait => WorkerWhileStarting(s, i);
    case StopWait(_) => WorkerWhileStopping(s, i);
    case _ =>
  }

  lemma WorkerKeepsSampleInv(s: State, i: nat)
    requires Inv(s) && Enabled(s, WorkerStep(i))
    ensures SampleInv(DoWorker(s, i)) && IdInv(DoWorker(s, i))
  {
    if s.workers[i].Adding? { ModAdd(s.total, 1, WORD); }
  }

  // ---- the delta fields ----

  lemma ModWordToDelta(x: int)
    ensures (x % WORD) % DELTA == x % DELTA
  {
    assert WORD == 65536 * DELTA;
    var k := x / WORD;
    assert x == x % WORD + (65536 * k) * DELTA;
    ModPlusMultiple(x % WORD, 65536 * k, DELTA);
  }

  lemma ModSub(a: int, b: int, n: nat)
    requires n > 0
    ensures (a % n - b % n) % n == (a - b) % n
  {
    assert a == (a / n) * n + a % n && b == (b / n) * n + b % n;
    assert a - b == (a % n - b % n) + (a / n - b / n) * n;
    ModPlusMultiple(a % n - b % n, a / n - b / n, n);
  }

  /** The delta field of a sample is the number of increments since the previous one, mod 2^48. */
  lemma DeltaField(seen: nat, total: nat)
    requires seen <= total
    ensures Difference(total % WORD, seen % WORD) % DELTA == (total - seen) % DELTA
  {
    ModSub(total, seen, WORD);
    ModWordToDelta(total - seen);
  }

  lemma SampleKeepsInv(s: State)
    requires Inv(s) && Enabled(s, SampleStep)
    ensures Inv(DoSample(s))
  {
    if s.sampler.Changed? {
      var total := s.sampler.total;
      DeltaField(s.seen, total);
      var d := (total - s.seen) % DELTA;
      ModAdd(s.deltas, d, DELTA);
      ModAdd(s.seen - s.mark, d, DELTA);
      ModAdd(total - s.seen, s.seen - s.mark, DELTA);
    }
  }

  // ---- every step keeps the invariant ----

  lemma LifeKeepsSampleInv(s: State)
    requires Inv(s) && Enabled(s, LifeStep)
    ensures SampleInv(DoLife(s)) && IdInv(DoLife(s))
  {}

  lemma CallKeepsInv(s: State, a: Action)
    requires Inv(s) && Enabled(s, a) && (a.StartCall? || a.StopCall? || a.CloseCall? || a.SampleCall?)
    ensures Inv(Do(s, a))
  {}

  lemma StepKeepsInv(s: State, a: Action)
    requires Inv(s) && Enabled(s, a)
    ensures Inv(Do(s, a)) && |Do(s, a).workers| == |s.workers|
  {
    match a
    case LifeStep =>
      LifeKeepsLifeInv(s);
      LifeKeepsSampleInv(s);
    case WorkerStep(i) =>
      WorkerKeepsLifeInv(s, i);
      WorkerKeepsSampleInv(s, i);
    case SampleStep => SampleKeepsInv(s);
    case _ => CallKeepsInv(s, a);
  }

  /** The actions can be taken one after the other from s. */
  ghost predicate Run(s: State, actions: seq<Action>)
    decreases |actions|
  {
    actions == [] || (Enabled(s, actions[0]) && Run(Do(s, actions[0]), actions[1..]))
  }

  ghost function Final(s: State, actions: seq<Action>): State
    requires Run(s, actions)
    decreases |actions|
  {
    if actions == [] then s else Final(Do(s, actions[0]), actions[1..])
  }

  /** The invariant holds after every run of every number of workers. */
  lemma {:induction false} RunKeepsInv(s: State, actions: seq<Action>)
    requires Inv(s) && Run(s, actions)
    ensures Inv(Final(s, actions)) && |Final(s, actions).workers| == |s.workers|
    decreases |actions|
  {
    if actions != [] {
      StepKeepsInv(s, actions[0]);
      RunKeepsInv(Do(s, actions[0]), actions[1..]);
    }
  }

  // ---- what it means ----

  /** Whenever the mutex is free: running means the stop flag is down and every worker is live and has
      announced itself; not running means no worker is left to take a step. Never both running and
      closed. */
  lemma WhenMutexIsFree(w: nat, actions: seq<Action>)
    requires 1 <= w <= 256 && Run(Initial(w), actions)
    ensures var s := Final(Initial(w), actions);
      s.life.Free? ==>
        && |s.workers| == w && !(s.running && s.closed)
        && (s.running ==> !s.stop && s.wg == w && forall i :: 0 <= i < w ==> Racing(s.workers[i]))
        && (!s.running ==> s.wg == 0 && forall i :: !Enabled(s, WorkerStep(i)))
  {
    InitialInv(w);
    RunKeepsInv(Initial(w), actions);
  }

  /** Closing is final: whatever is called later, no worker runs again and the counter stands still. */
  lemma {:induction false} ClosedForever(s: State, actions: seq<Action>)
    requires Inv(s) && s.closed && Run(s, actions)
    ensures var t := Final(s, actions);
      t.closed && !t.running && t.life.Free? && AllDead(t.workers) && t.counter == s.counter && t.total == s.total
    decreases |actions|
  {
    assert s.life.Free?;
    if actions != [] {
      StepKeepsInv(s, actions[0]);
      ClosedForever(Do(s, actions[0]), actions[1..]);
    }
  }

  /** After any run the delta fields returned since the last Start add up, mod 2^48, to the worker
      increments from Start's load of the counter to the last sample's; and every id field is the id
      of a worker. */
  lemma DeltasCountIncrements(w: nat, actions: seq<Action>)
    requires 1 <= w <= 256 && Run(Initial(w), actions)
    ensures var s := Final(Initial(w), actions);
      && s.mark <= s.seen <= s.total
      && s.deltas % DELTA == (s.seen - s.mark) % DELTA
      && s.counter == s.total % WORD
      && forall i :: 0 <= i < |s.samples| ==> s.samples[i].id < w
  {
    InitialInv(w);
    RunKeepsInv(Initial(w), actions);
  }

  // ---- stopping ----

  ghost predicate StaysStopping(s: State, actions: seq<Action>)
    requires Run(s, actions)
    decreases |actions|
  {
    s.life.StopWait? && (actions == [] || StaysStopping(Do(s, actions[0]), actions[1..]))
  }

  ghost function WorkerSteps(actions: seq<Action>): nat {
    if actions == [] then 0 else WorkerSteps(actions[1..]) + if actions[0].WorkerStep? then 1 else 0
  }

  lemma StoppingStep(s: State, a: Action)
    requires Inv(s) && Enabled(s, a) && s.life.StopWait? && Do(s, a).life.StopWait?
    ensures var t := Do(s, a);
      && t.total - s.total == Sum(s.workers, ARMED) - Sum(t.workers, ARMED)
      && Sum(t.workers, RANKS) + WorkerSteps([a]) <= Sum(s.workers, RANKS)
  {
    assert WorkerSteps([a]) == if a.WorkerStep? then 1 else 0;
    if a.WorkerStep? {
      var i := a.id;
      SumUpdate(s.workers, i, DoWorker(s, i).workers[i], ARMED);
      SumUpdate(s.workers, i, DoWorker(s, i).workers[i], RANKS);
    }
  }

  lemma {:induction false} SumBounds(ws: seq<Worker>)
    requires forall i :: 0 <= i < |ws| ==> !ws[i].Spawned?
    ensures Sum(ws, ARMED) <= |ws| && Sum(ws, RANKS) <= 4 * |ws|
  {
    if ws != [] { SumBounds(ws[..|ws| - 1]); }
  }

  /** Once the stop flag is up, as long as Stop waits: increments land only from workers that had
      already read the flag as down, one each, and the workers take at most four steps each. */
  lemma {:induction false} StoppingIsBounded(s: State, actions: seq<Action>)
    requires Inv(s) && Run(s, actions) && StaysStopping(s, actions)
    ensures var t := Final(s, actions);
      && t.total - s.total == Sum(s.workers, ARMED) - Sum(t.workers, ARMED)
      && WorkerSteps(actions) + Sum(t.workers, RANKS) <= Sum(s.workers, RANKS)
      && Sum(s.workers, ARMED) <= |s.workers| && Sum(s.workers, RANKS) <= 4 * |s.workers|
    decreases |actions|
  {
    SumBounds(s.workers);
    if actions != [] {
      var a := actions[0];
      StepKeepsInv(s, a);
      StoppingStep(s, a);
      StoppingIsBounded(Do(s, a), actions[1..]);
      assert WorkerSteps([a]) == if a.WorkerStep? then 1 else 0;
    }
  }

  /** Nobody waits in vain: while Stop waits some worker can move or Stop itself can, and while Start
      waits for workers to announce themselves one that has not can do so. */
  lemma WaitingMakesProgress(s: State)
    requires Inv(s)
    ensures s.life.StopWait? ==> Enabled(s, LifeStep) || exists i :: Enabled(s, WorkerStep(i))
    ensures s.life.StartWait? && s.ready < |s.workers| ==>
      exists i :: Enabled(s, WorkerStep(i)) && Do(s, WorkerStep(i)).ready == s.ready + 1
  {
    AliveCounts(s.workers);
    AnnouncedCounts(s.workers);
    if s.life.StopWait? && s.wg != 0 {
      var i :| 0 <= i < |s.workers| && !s.workers[i].Dead?;
      assert Enabled(s, WorkerStep(i));
    }
    if s.life.StartWait? && s.ready < |s.workers| {
      var i :| 0 <= i < |s.workers| && !Racing(s.workers[i]);
      assert Enabled(s, WorkerStep(i)) && Do(s, WorkerStep(i)).ready == s.ready + 1;
    }
  }

  // ---- the poll loop ----

  /** How many more steps of its own the current sample can take. */
  function PollsLeft(s: State): int {
    match s.sampler
    case Idle => 0
    case Changed(_, _, _) => 1
    case Polling(polls) => MAX_POLLS - polls + 2
  }

  /** Each step of the sampler uses one up, and no other step gives any back. */
  lemma PollsRunDown(s: State, a: Action)
    requires Inv(s) && Enabled(s, a)
    ensures a.SampleStep? ==> PollsLeft(Do(s, a)) < PollsLeft(s)
    ensures !a.SampleStep? && !a.SampleCall? ==> PollsLeft(Do(s, a)) == PollsLeft(s)
  {}

  ghost function SampleSteps(actions: seq<Action>): nat {
    if actions == [] then 0 else SampleSteps(actions[1..]) + if actions[0].SampleStep? then 1 else 0
  }

  /** Whatever the workers do meanwhile, a sample ends after at most MAX_POLLS + 2 steps of its own. */
  lemma {:induction false} SamplingIsBounded(s: State, actions: seq<Action>)
    requires Inv(s) && Run(s, actions)
    requires forall i :: 0 <= i < |actions| ==> !actions[i].SampleCall?
    ensures 0 <= SampleSteps(actions) + PollsLeft(Final(s, actions)) <= PollsLeft(s) <= MAX_POLLS + 2
    ensures 0 <= PollsLeft(Final(s, actions)) && (PollsLeft(Final(s, actions)) == 0 <==> Final(s, actions).sampler.Idle?)
    decreases |actions|
  {
    if actions != [] {
      StepKeepsInv(s, actions[0]);
      PollsRunDown(s, actions[0]);
      SamplingIsBounded(Do(s, actions[0]), actions[1..]);
    }
  }

  /** Only the sampler takes steps. */
  ghost predicate OnlySampling(actions: seq<Action>) {
    forall i :: 0 <= i < |actions| ==> actions[i].SampleCall? || actions[i].SampleStep?
  }

  /** What sampling looks like k samples into a stall: nothing moves, and from the second sample on
      every sample has the same three fields. */
  ghost predicate Stalled(s: State, counter: nat, last: nat, first: nat) {
    && s.counter == counter && s.last == last && first <= |s.samples|
    && (s.sampler.Changed? ==> s.sampler.v == counter)
    && (first < |s.samples| ==> s.prev == counter)
    && forall i :: first < i < |s.samples| ==> s.samples[i] == Sample(0, 0, last)
  }

  lemma StalledStep(s: State, a: Action, counter: nat, last: nat, first: nat)
    requires Inv(s) && Enabled(s, a) && Stalled(s, counter, last, first)
    requires a.SampleCall? || a.SampleStep?
    ensures Stalled(Do(s, a), counter, last, first)
  {
    if a.SampleStep? && s.sampler.Changed? && first < |s.samples| {
      assert Difference(counter, counter) == 0;
    }
  }

  /** If no worker takes a step, every sample after the first is one and the same. */
  lemma {:induction false} StalledSamplesRepeat(s: State, actions: seq<Action>, counter: nat, last: nat, first: nat)
    requires Inv(s) && Run(s, actions) && OnlySampling(actions) && Stalled(s, counter, last, first)
    ensures Stalled(Final(s, actions), counter, last, first)
    decreases |actions|
  {
    if actions != [] {
      StepKeepsInv(s, actions[0]);
      StalledStep(s, actions[0], counter, last, first);
      StalledSamplesRepeat(Do(s, actions[0]), actions[1..], counter, last, first);
    }
  }
}
