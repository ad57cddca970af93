/** Preparing downloaded blocks for the wallet on several threads. Every section that runs under the mutex is one step;
    a run is any sequence of steps. */
module WalletPreparing {
  import opened ChainTypes
  import opened WorkerPool

  type RawBlock = nat
  type SecretKey = nat
  type Prepared = nat

  /** What a worker computes from a block, with the view key. */
  type Preparation = (RawBlock, SecretKey) -> Prepared

  datatype Work = Work(start: Height, blocks: seq<RawBlock>)

  const NO_WORK := Work(0, [])

  datatype Job = Job(counter: nat, height: Height, block: RawBlock, key: SecretKey)

  /** waiting is the height that the client sleeps for in get_ready_work. The last four are history: the current batch
      and its key, which of its blocks were returned, and whether nothing was left over when it was started. */
  datatype State = State(
    work: Work, key: SecretKey, counter: nat, prepared: map<Height, Prepared>, workers: seq<Worker<Job>>,
        waiting: Option<Height>,
    batch: Work, batchKey: SecretKey, returned: set<Height>, clean: bool)

  function Init(threads: nat): State {
    State(NO_WORK, 0, 0, map[], seq(threads, _ => Free), None, NO_WORK, 0, {}, true)
  }

  datatype Step =
    | Cancel
    | Start(work: Work, key: SecretKey)
    | Take(worker: nat)
    | Finish(worker: nat)
    | GetReady(height: Height)
    | Sleep(worker: nat)          // a worker finds nothing to do
    | Wake(worker: nat)           // and wakes up although nobody notified it
    | ClientSleep(height: Height) // get_ready_work finds that the block is not prepared
    | ClientWake                  // and wakes up although nobody notified it

  predicate Enabled(s: State, t: Step) {
    match t
    case Take(w) => w < |s.workers| && s.workers[w].Free? && s.work.blocks != []
    case Finish(w) => w < |s.workers| && s.workers[w].Busy?
    case GetReady(h) => h in s.prepared && s.waiting.None?
    case Sleep(w) => w < |s.workers| && s.workers[w].Free? && s.work.blocks == []
    case Wake(w) => w < |s.workers| && s.workers[w].Asleep?
    case ClientSleep(h) => h !in s.prepared && s.waiting.None?
    case ClientWake => s.waiting.Some?
    case _ => true
  }

  function Next(s: State, t: Step, prepare: Preparation): State
    requires Enabled(s, t)
  {
    match t
    case Cancel =>
      s.(work := NO_WORK, prepared := map[], batchKey := s.key, counter := s.counter + 1,
         batch := NO_WORK, returned := {}, clean := true)
    case Start(work, key) =>
      s.(work := work, key := key, counter := s.counter + 1, workers := Woken(s.workers),
         batch := work, batchKey := key, returned := {}, clean := s.prepared == map[])
    case Take(w) =>
      s.(work := Work(s.work.start + 1, s.work.blocks[1..]),
         workers := s.workers[w := Busy(Job(s.counter, s.work.start, s.work.blocks[0], s.key))])
    case Finish(w) =>
      var v, d := s.(workers := s.workers[w := Free]), s.workers[w].job;
      if d.counter != s.counter then v
          else v.(prepared := s.prepared[d.height := prepare(d.block, d.key)], waiting := None)
    case GetReady(h) => s.(prepared := s.prepared - {h}, returned := s.returned + {h})
    case Sleep(w) => s.(workers := s.workers[w := Asleep])
    case Wake(w) => s.(workers := s.workers[w := Free])
    case ClientSleep(h) => s.(waiting := Some(h))
    case ClientWake => s.(waiting := None)
  }

  ghost predicate IsRun(run: seq<State>, steps: seq<Step>, threads: nat, prepare: Preparation) {
    && |run| == |steps| + 1 && run[0] == Init(threads)
    && forall i | 0 <= i < |steps| :: Enabled(run[i], steps[i]) && run[i + 1] == Next(run[i], steps[i], prepare)
  }

  // ---- the invariant ----

  predicate IsCurrent(s: State, w: nat) {
    w < |s.workers| && s.workers[w].Busy? && s.workers[w].job.counter == s.counter
  }

  /** Up to which height the batch has been handed out. */
  function Handed(s: State): int {
    s.batch.start + |s.batch.blocks| - |s.work.blocks|
  }

  /** What is left to hand out is the end of the batch. */
  ghost predicate WorkIsRest(s: State) {
    && |s.work.blocks| <= |s.batch.blocks| && s.work.blocks == s.batch.blocks[|s.batch.blocks| - |s.work.blocks|..]
    && (s.work.blocks != [] ==> s.work.start == Handed(s) && s.key == s.batchKey)
  }

  /** Workers on the current batch hold blocks of it that were handed out. */
  ghost predicate WorkersOk(s: State) {
    && (forall w: nat | w < |s.workers| && s.workers[w].Busy? :: s.workers[w].job.counter <= s.counter)
    && (forall w: nat | IsCurrent(s, w) ::
          && s.batch.start <= s.workers[w].job.height < Handed(s) && s.workers[w].job.key == s.batchKey
          && s.workers[w].job.block == s.batch.blocks[s.workers[w].job.height - s.batch.start])
    && (forall w: nat, v: nat | IsCurrent(s, w) && IsCurrent(s, v)
        && s.workers[w].job.height == s.workers[v].job.height :: w == v)
  }

  function Expected(s: State, h: Height, prepare: Preparation): Prepared
    requires s.batch.start <= h < s.batch.start + |s.batch.blocks|
  {
    prepare(s.batch.blocks[h - s.batch.start], s.batchKey)
  }

  /** In a clean batch, what is prepared belongs to it, and a block is prepared, in work or returned, but not two of
      it. */
  ghost predicate PreparedOk(s: State, prepare: Preparation)
    requires WorkIsRest(s)
  {
    && (forall h <- s.prepared ::
        s.batch.start <= h < Handed(s) && s.prepared[h] == Expected(s, h, prepare) && h !in s.returned)
    && (forall w: nat | IsCurrent(s, w) ::
        s.workers[w].job.height !in s.prepared && s.workers[w].job.height !in s.returned)
    && (forall h <- s.returned :: h < Handed(s))
  }

  ghost predicate NoneMissing(s: State) {
    forall h: Height | s.batch.start <= h < Handed(s) :: h in s.prepared || h in s.returned || InWork(s, h)
  }

  ghost predicate InWork(s: State, h: Height) {
    exists w: nat | IsCurrent(s, w) :: s.workers[w].job.height == h
  }

  ghost predicate Valid(s: State, prepare: Preparation) {
    && WorkIsRest(s) && WorkersOk(s) && NoneMissing(s)
    && (s.clean ==> PreparedOk(s, prepare))
    && NobodyOversleeps(s)
  }

  /** Nobody sleeps while there is what it waits for: no worker while there is a block, nor the client when its block is
      prepared. */
  ghost predicate NobodyOversleeps(s: State) {
    && (s.work.blocks != [] ==> forall w <- s.workers :: !w.Asleep?)
    && (s.waiting.Some? ==> s.waiting.value !in s.prepared)
  }

  lemma {:induction false} TakeKeepsValid(s: State, w: nat, prepare: Preparation)
    requires Valid(s, prepare) && Enabled(s, Take(w))
    ensures Valid(Next(s, Take(w), prepare), prepare)
  {
    var v, n := Next(s, Take(w), prepare), |s.batch.blocks| - |s.work.blocks|;
    assert s.batch.blocks[n..][1..] == s.batch.blocks[n + 1..];
    assert s.work.blocks[0] == s.batch.blocks[n];
    assert forall x: nat | x != w :: IsCurrent(v, x) <==> IsCurrent(s, x);
    forall h: Height | v.batch.start <= h < Handed(v)
      ensures h in v.prepared || h in v.returned || InWork(v, h)
    {
      if h == s.work.start {
        assert IsCurrent(v, w);
      } else if InWork(s, h) {
        var x: nat :| IsCurrent(s, x) && s.workers[x].job.height == h;
        assert IsCurrent(v, x);
      }
    }
  }

  lemma {:induction false} FinishKeepsValid(s: State, w: nat, prepare: Preparation)
    requires Valid(s, prepare) && Enabled(s, Finish(w))
    ensures Valid(Next(s, Finish(w), prepare), prepare)
  {
    FinishMissesNone(s, w, prepare);
    StepWakes(s, Finish(w), prepare);
    hide NoneMissing, NobodyOversleeps;
    FinishKeepsWorkers(s, w, prepare);
    if s.clean {
      FinishKeepsPrepared(s, w, prepare);
    }
    hide WorkersOk, PreparedOk;
  }

  lemma {:induction false} StepWakes(s: State, t: Step, prepare: Preparation)
    requires NobodyOversleeps(s) && Enabled(s, t)
    ensures NobodyOversleeps(Next(s, t, prepare))
  {
  }

  /** Sleeping and waking change nothing that matters to the batch. */
  lemma {:induction false} SleepKeepsValid(s: State, t: Step, prepare: Preparation)
    requires Valid(s, prepare) && Enabled(s, t) && (t.Sleep? || t.Wake? || t.ClientSleep? || t.ClientWake?)
    ensures Valid(Next(s, t, prepare), prepare)
  {
    var v := Next(s, t, prepare);
    StepWakes(s, t, prepare);
    SameCurrent(s, t, prepare);
    SameInWork(s, v);
    SameWorkers(s, v, prepare);
    hide IsCurrent, NobodyOversleeps, NoneMissing, WorkersOk, PreparedOk;
  }

  ghost predicate SameJobs(s: State, v: State) {
    && v == s.(workers := v.workers, waiting := v.waiting) && |v.workers| == |s.workers|
    && forall w: nat | w < |s.workers| ::
         v.workers[w].Busy? == s.workers[w].Busy? && (s.workers[w].Busy? ==> v.workers[w] == s.workers[w])
  }

  lemma {:induction false} SameCurrent(s: State, t: Step, prepare: Preparation)
    requires Enabled(s, t) && (t.Sleep? || t.Wake? || t.ClientSleep? || t.ClientWake?)
    ensures SameJobs(s, Next(s, t, prepare))
  {
  }

  lemma {:induction false} SameWorkers(s: State, v: State, prepare: Preparation)
    requires SameJobs(s, v) && WorkersOk(s) && WorkIsRest(s)
    ensures WorkersOk(v) && WorkIsRest(v) && (PreparedOk(s, prepare) ==> PreparedOk(v, prepare))
  {
    assert forall w: nat :: IsCurrent(v, w) <==> IsCurrent(s, w);
    assert forall w: nat | IsCurrent(s, w) :: v.workers[w] == s.workers[w];
    if PreparedOk(s, prepare) {
      SamePrepared(s, v, prepare);
    }
    hide PreparedOk;
  }

  lemma {:induction false} SamePrepared(s: State, v: State, prepare: Preparation)
    requires SameJobs(s, v) && WorkIsRest(s) && WorkIsRest(v) && PreparedOk(s, prepare)
    ensures PreparedOk(v, prepare)
  {
    assert forall w: nat :: IsCurrent(v, w) <==> IsCurrent(s, w);
    assert forall w: nat | IsCurrent(s, w) :: v.workers[w] == s.workers[w];
  }

  lemma {:induction false} SameInWork(s: State, v: State)
    requires NoneMissing(s) && SameJobs(s, v)
    ensures NoneMissing(v)
  {
    forall h: Height | v.batch.start <= h < Handed(v)
      ensures h in v.prepared || h in v.returned || InWork(v, h)
    {
      if InWork(s, h) {
        var x: nat :| IsCurrent(s, x) && s.workers[x].job.height == h;
        assert IsCurrent(v, x);
      }
    }
  }

  lemma {:induction false} FinishKeepsWorkers(s: State, w: nat, prepare: Preparation)
    requires WorkersOk(s) && WorkIsRest(s) && Enabled(s, Finish(w))
    ensures WorkersOk(Next(s, Finish(w), prepare))
    ensures forall x: nat :: IsCurrent(Next(s, Finish(w), prepare), x) <==> IsCurrent(s, x) && x != w
  {
    var v := Next(s, Finish(w), prepare);
    assert forall x: nat :: IsCurrent(v, x) <==> IsCurrent(s, x) && x != w;
    assert forall x: nat | x < |s.workers| && x != w :: v.workers[x] == s.workers[x];
    hide IsCurrent;
  }

  lemma {:induction false} FinishKeepsPrepared(s: State, w: nat, prepare: Preparation)
    requires WorkersOk(s) && WorkIsRest(s) && PreparedOk(s, prepare) && Enabled(s, Finish(w))
    ensures PreparedOk(Next(s, Finish(w), prepare), prepare)
  {
    FinishKeepsWorkers(s, w, prepare);
    assert s.workers[w].job.counter == s.counter ==> IsCurrent(s, w);
  }

  lemma {:induction false} FinishMissesNone(s: State, w: nat, prepare: Preparation)
    requires NoneMissing(s) && Enabled(s, Finish(w))
    ensures NoneMissing(Next(s, Finish(w), prepare))
  {
    var v := Next(s, Finish(w), prepare);
    forall h: Height | v.batch.start <= h < Handed(v)
      ensures h in v.prepared || h in v.returned || InWork(v, h)
    {
      if InWork(s, h) {
        var x: nat :| IsCurrent(s, x) && s.workers[x].job.height == h;
        assert x != w ==> IsCurrent(v, x);
      }
    }
  }

  lemma {:induction false} GetReadyKeepsValid(s: State, h: Height, prepare: Preparation)
    requires Valid(s, prepare) && Enabled(s, GetReady(h))
    ensures Valid(Next(s, GetReady(h), prepare), prepare)
  {
    var v := Next(s, GetReady(h), prepare);
    assert forall x: nat :: IsCurrent(v, x) <==> IsCurrent(s, x);
    hide IsCurrent;
    forall h: Height | v.batch.start <= h < Handed(v)
      ensures h in v.prepared || h in v.returned || InWork(v, h)
    {
      if InWork(s, h) {
        var x: nat :| IsCurrent(s, x) && s.workers[x].job.height == h;
        assert IsCurrent(v, x);
      }
    }
  }

  /** A batch that has just begun, or none: nothing of it is handed out, and nobody works on it. */
  ghost predicate IsNew(s: State) {
    && s.work == s.batch && s.key == s.batchKey && s.returned == {} && (s.clean ==> s.prepared == map[])
    && forall w: nat | w < |s.workers| && s.workers[w].Busy? :: s.workers[w].job.counter < s.counter
  }

  lemma {:induction false} NewBatchIsWhole(s: State)
    requires IsNew(s)
    ensures WorkIsRest(s) && Handed(s) == s.batch.start && NoneMissing(s)
  {
    assert s.batch.blocks[0..] == s.batch.blocks;
  }

  lemma {:induction false} NewBatchHasNoWorkers(s: State)
    requires IsNew(s)
    ensures WorkersOk(s)
  {
    assert forall w: nat :: !IsCurrent(s, w);
    hide IsCurrent;
  }

  lemma {:induction false} NewBatchIsUnprepared(s: State, prepare: Preparation)
    requires IsNew(s) && WorkIsRest(s) && s.clean
    ensures PreparedOk(s, prepare)
  {
    assert forall w: nat :: !IsCurrent(s, w);
    hide IsCurrent;
  }

  lemma {:induction false} NewBatchIsValid(s: State, prepare: Preparation)
    requires IsNew(s) && NobodyOversleeps(s)
    ensures Valid(s, prepare)
  {
    NewBatchIsWhole(s);
    NewBatchHasNoWorkers(s);
    if s.clean {
      NewBatchIsUnprepared(s, prepare);
    }
    hide WorkIsRest, WorkersOk, NoneMissing, PreparedOk, NobodyOversleeps;
  }

  lemma {:induction false} StartIsNew(s: State, t: Step, prepare: Preparation)
    requires WorkersOk(s) && (t.Start? || t.Cancel?)
    ensures IsNew(Next(s, t, prepare))
  {
  }

  lemma {:induction false} RunIsValid(run: seq<State>, steps: seq<Step>, threads: nat, prepare: Preparation)
    requires IsRun(run, steps, threads, prepare)
    ensures Valid(run[|steps|], prepare) && |run[|steps|].workers| == threads
  {
    hide Valid, Next, Enabled;
    if steps == [] {
      InitIsValid(threads, prepare);
    } else {
      var n := |steps| - 1;
      RunIsValid(run[..n + 1], steps[..n], threads, prepare);
      StepKeepsValid(run[n], steps[n], prepare);
    }
  }

  lemma {:induction false} InitIsValid(threads: nat, prepare: Preparation)
    ensures Valid(Init(threads), prepare) && |Init(threads).workers| == threads
  {
    NewBatchIsValid(Init(threads), prepare);
  }

  /** Each step keeps the batch in order, whoever makes it. */
  lemma {:induction false} StepKeepsValid(s: State, t: Step, prepare: Preparation)
    requires Valid(s, prepare) && Enabled(s, t)
    ensures Valid(Next(s, t, prepare), prepare) && |Next(s, t, prepare).workers| == |s.workers|
  {
    hide Valid;
    match t
    case Take(w) => TakeKeepsValid(s, w, prepare);
    case Finish(w) => FinishKeepsValid(s, w, prepare);
    case GetReady(h) => GetReadyKeepsValid(s, h, prepare);
    case Cancel =>
      ValidWorkers(s, prepare);
      StepWakes(s, t, prepare);
      StartIsNew(s, t, prepare);
      NewBatchIsValid(Next(s, t, prepare), prepare);
    case Start(_, _) =>
      ValidWorkers(s, prepare);
      StepWakes(s, t, prepare);
      StartIsNew(s, t, prepare);
      NewBatchIsValid(Next(s, t, prepare), prepare);
    case _ => SleepKeepsValid(s, t, prepare);
  }

  lemma {:induction false} ValidWorkers(s: State, prepare: Preparation)
    requires Valid(s, prepare)
    ensures WorkersOk(s) && NobodyOversleeps(s)
  {
    hide NoneMissing, PreparedOk;
  }

  // ---- what get_ready_work returns ----

  /** What is prepared at height h is the preparation of the batch's block at that height, with the batch's key, and it
      has not been returned before. */
  ghost predicate Right(s: State, h: Height, prepare: Preparation)
    requires h in s.prepared
  {
    && s.batch.start <= h < s.batch.start + |s.batch.blocks| && h !in s.returned
    && s.prepared[h] == Expected(s, h, prepare)
  }

  /** In every run: when nothing was left over at the start of the current batch, whatever is ready is right. */
  lemma {:induction false} ReadyIsOfCurrentBatch(run: seq<State>, steps: seq<Step>, threads: nat, prepare: Preparation,
                                                 h: Height)
    requires IsRun(run, steps, threads, prepare)
    requires var s := run[|steps|]; s.clean && h in s.prepared
    ensures Right(run[|steps|], h, prepare)
  {
    RunIsValid(run, steps, threads, prepare);
  }

  lemma {:induction false} NothingAfterCancel(run: seq<State>, steps: seq<Step>, threads: nat, prepare: Preparation,
                                              i: nat, j: nat)
    requires IsRun(run, steps, threads, prepare) && i < j <= |steps|
    requires steps[i].Cancel? && forall k | i < k < j :: !steps[k].Start?
    ensures run[j].clean && run[j].batch == NO_WORK && run[j].prepared == map[]
    decreases j
  {
    RunIsValid(run[..j + 1], steps[..j], threads, prepare);
    if i < j - 1 {
      NothingAfterCancel(run, steps, threads, prepare, i, j - 1);
    }
  }

  /** Nothing is left over when there was a cancel_work, and no other start_work after it. */
  lemma {:induction false} CancelMakesClean(run: seq<State>, steps: seq<Step>, threads: nat, prepare: Preparation,
                                            i: nat, n: nat)
    requires IsRun(run, steps, threads, prepare) && i < n < |steps|
    requires steps[i].Cancel? && steps[n].Start? && forall k | i < k < n :: !steps[k].Start?
    ensures run[n + 1].clean
  {
    NothingAfterCancel(run, steps, threads, prepare, i, n);
  }

  // ---- when something is left over ----

  /** The state after further steps, or None when one of them cannot be made. */
  function After(s: State, steps: seq<Step>, prepare: Preparation): Option<State>
    decreases |steps|
  {
    if steps == [] then Some(s)
    else if !Enabled(s, steps[0]) then None
    else After(Next(s, steps[0], prepare), steps[1..], prepare)
  }

  predicate SameBatch(steps: seq<Step>) {
    forall t <- steps :: !t.Start? && !t.Cancel?
  }

  /** These steps lead to a moment when get_ready_work returns the block at height h. */
  ghost predicate LeadsToReturn(s: State, steps: seq<Step>, h: Height, prepare: Preparation) {
    SameBatch(steps) && After(s, steps, prepare).Some? && Enabled(After(s, steps, prepare).value, GetReady(h))
  }

  /** However the batch goes on, whatever is returned is right. */
  ghost predicate AlwaysRight(s: State, prepare: Preparation) {
    forall steps: seq<Step>, h: Height | LeadsToReturn(s, steps, h, prepare) ::
        Right(After(s, steps, prepare).value, h, prepare)
  }

  lemma {:induction false} StaysClean(s: State, steps: seq<Step>, prepare: Preparation)
    requires Valid(s, prepare) && s.clean && SameBatch(steps) && After(s, steps, prepare).Some?
    ensures var v := After(s, steps, prepare).value; Valid(v, prepare) && v.clean
    decreases |steps|
  {
    hide Valid;
    if steps != [] {
      StepKeepsValid(s, steps[0], prepare);
      assert steps[0] in steps;
      StaysClean(Next(s, steps[0], prepare), steps[1..], prepare);
    }
  }

  lemma {:induction false} AfterAppend(s: State, xs: seq<Step>, ys: seq<Step>, prepare: Preparation)
    requires After(s, xs, prepare).Some?
    ensures After(s, xs + ys, prepare) == After(After(s, xs, prepare).value, ys, prepare)
    decreases |xs|
  {
    hide Next, Enabled;
    if xs == [] {
      assert xs + ys == ys;
    } else {
      assert (xs + ys)[1..] == xs[1..] + ys;
      AfterAppend(Next(s, xs[0], prepare), xs[1..], ys, prepare);
    }
  }

  lemma {:induction false} AfterOne(s: State, t: Step, prepare: Preparation)
    requires Enabled(s, t)
    ensures After(s, [t], prepare) == Some(Next(s, t, prepare))
  {
    assert After(Next(s, t, prepare), [], prepare).Some?;
  }

  /** Whatever the first worker does, it can be made ready to take a block. */
  lemma {:induction false} FirstIsFree(s: State, prepare: Preparation) returns (steps: seq<Step>)
    requires s.workers != []
    ensures SameBatch(steps) && After(s, steps, prepare).Some?
    ensures var v := After(s, steps, prepare).value;
            && v.workers != [] && v.workers[0].Free? && v.work == s.work && v.returned == s.returned
            && (s.waiting.None? ==> v.waiting.None?)
  {
    steps := match s.workers[0] { case Free => [] case Asleep => [Wake(0)] case Busy(_) => [Finish(0)] };
    if !s.workers[0].Free? {
      AfterOne(s, steps[0], prepare);
    }
  }

  /** The first worker prepares the next block. */
  lemma {:induction false} FirstPrepares(s: State, prepare: Preparation) returns (steps: seq<Step>)
    requires s.workers != [] && s.workers[0].Free? && s.work.blocks != [] && s.waiting.None?
    ensures SameBatch(steps) && After(s, steps, prepare).Some?
    ensures var v := After(s, steps, prepare).value;
            && v.workers != [] && v.work == Work(s.work.start + 1, s.work.blocks[1..]) && v.returned == s.returned
            && v.waiting.None? && s.work.start in v.prepared
  {
    var taken := Next(s, Take(0), prepare);
    AfterOne(s, Take(0), prepare);
    AfterOne(taken, Finish(0), prepare);
    AfterAppend(s, [Take(0)], [Finish(0)], prepare);
    steps := [Take(0)] + [Finish(0)];
  }

  /** A block that is still to be taken can be prepared, also when it has been returned already. */
  lemma {:induction false} PreparedAgain(s: State, h: Height, prepare: Preparation) returns (steps: seq<Step>)
    requires s.workers != [] && s.waiting.None? && s.work.start <= h < s.work.start + |s.work.blocks|
    ensures LeadsToReturn(s, steps, h, prepare) && After(s, steps, prepare).value.returned == s.returned
    decreases |s.work.blocks|
  {
    hide Next, After;
    var xs := FirstIsFree(s, prepare);
    var free := After(s, xs, prepare).value;
    var ys := FirstPrepares(free, prepare);
    AfterAppend(s, xs, ys, prepare);
    steps := xs + ys;
    if h != s.work.start {
      var next := After(free, ys, prepare).value;
      var zs := PreparedAgain(next, h, prepare);
      AfterAppend(s, xs + ys, zs, prepare);
      steps := xs + ys + zs;
    }
  }

  /** Whatever is left over at the start of a batch can be returned as a block of it, or makes a block be returned
      twice. */
  lemma {:induction false} LeftOverIsWrong(s: State, h: Height, prepare: Preparation)
    requires Valid(s, prepare) && s.workers != [] && s.work == s.batch && h in s.prepared
    ensures !AlwaysRight(s, prepare)
  {
    hide Valid, After;
    var xs := if s.waiting.None? then [] else [ClientWake];
    var v := s.(waiting := None);
    AwakeClient(s, prepare);
    assert LeadsToReturn(s, xs, h, prepare);
    if Right(v, h, prepare) {
      var returned := Next(v, GetReady(h), prepare);
      AfterOne(v, GetReady(h), prepare);
      AfterAppend(s, xs, [GetReady(h)], prepare);
      var ys := PreparedAgain(returned, h, prepare);
      AfterAppend(s, xs + [GetReady(h)], ys, prepare);
      assert LeadsToReturn(s, xs + [GetReady(h)] + ys, h, prepare);
    }
  }

  lemma {:induction false} AwakeClient(s: State, prepare: Preparation)
    ensures After(s, if s.waiting.None? then [] else [ClientWake], prepare) == Some(s.(waiting := None))
  {
    if s.waiting.Some? {
      AfterOne(s, ClientWake, prepare);
    }
  }

  /** Starting a batch in any reachable state: however it goes on, whatever is returned is right, and returned once,
      exactly when no prepared block was left over. */
  lemma {:induction false} RightIffNothingLeftOver(run: seq<State>, steps: seq<Step>, threads: nat, work: Work,
                                                   key: SecretKey, prepare: Preparation)
    requires IsRun(run, steps, threads, prepare) && threads > 0
    ensures AlwaysRight(Next(run[|steps|], Start(work, key), prepare), prepare) <==> run[|steps|].prepared == map[]
  {
    var s := run[|steps|];
    var v := Next(s, Start(work, key), prepare);
    RunIsValid(run, steps, threads, prepare);
    StepKeepsValid(s, Start(work, key), prepare);
    hide IsRun, After, Next, Valid;
    if s.prepared == map[] {
      forall more: seq<Step>, h: Height | LeadsToReturn(v, more, h, prepare)
        ensures Right(After(v, more, prepare).value, h, prepare)
      {
        StaysClean(v, more, prepare);
        ValidIsRight(After(v, more, prepare).value, h, prepare);
      }
    } else {
      var h :| h in s.prepared;
      LeftOverIsWrong(v, h, prepare);
    }
  }

  lemma {:induction false} ValidIsRight(s: State, h: Height, prepare: Preparation)
    requires Valid(s, prepare) && s.clean && h in s.prepared
    ensures Right(s, h, prepare)
  {
  }

  /** For instance, a block of an earlier batch is returned: start_work leaves what is prepared alone. */
  lemma {:induction false} StaleWithoutCancel(prepare: Preparation, key: SecretKey, h: Height, before: RawBlock,
                                              after: RawBlock)
    requires prepare(before, key) != prepare(after, key)
    ensures exists run: seq<State>, steps: seq<Step> ::
              && IsRun(run, steps, 1, prepare) && Enabled(run[|steps|], GetReady(h))
              && run[|steps|].batch == Work(h, [after])
                  && run[|steps|].prepared[h] != Expected(run[|steps|], h, prepare)
  {
    hide Next, Enabled, Woken;
    var first, second := Start(Work(h, [before]), key), Start(Work(h, [after]), key);
    var steps := [first, Take(0), Finish(0), second];
    var s1, s2, s3 := FirstBatch(prepare, key, h, before);
    var s4 := SecondBatch(s3, prepare, key, h, after);
    var run := [Init(1), s1, s2, s3, s4];
    assert run[|steps|] == s4;
    assert IsRun(run, steps, 1, prepare);
  }

  lemma {:induction false} FirstBatch(prepare: Preparation, key: SecretKey, h: Height, block: RawBlock)
    returns (s1: State, s2: State, s3: State)
    ensures Enabled(Init(1), Start(Work(h, [block]), key)) && s1 == Next(Init(1), Start(Work(h, [block]), key), prepare)
    ensures Enabled(s1, Take(0)) && s2 == Next(s1, Take(0), prepare)
    ensures Enabled(s2, Finish(0)) && s3 == Next(s2, Finish(0), prepare)
    ensures s3.waiting.None? && s3.prepared == map[h := prepare(block, key)]
  {
    s1 := Next(Init(1), Start(Work(h, [block]), key), prepare);
    assert s1.workers == [Free] && s1.work.blocks == [block];
    s2 := Next(s1, Take(0), prepare);
    assert s2.workers == [Busy(Job(1, h, block, key))] && s2.counter == 1;
    s3 := Next(s2, Finish(0), prepare);
  }

  lemma {:induction false} SecondBatch(s: State, prepare: Preparation, key: SecretKey, h: Height, block: RawBlock)
    returns (v: State)
    requires s.waiting.None? && h in s.prepared
    ensures Enabled(s, Start(Work(h, [block]), key)) && v == Next(s, Start(Work(h, [block]), key), prepare)
    ensures Enabled(v, GetReady(h)) && v.prepared == s.prepared
    ensures v.batch == Work(h, [block]) && Expected(v, h, prepare) == prepare(block, key)
  {
    v := Next(s, Start(Work(h, [block]), key), prepare);
  }

  // ---- the client never waits for nothing ----

  function WorkLeft(s: State): nat {
    2 * |s.work.blocks| + BusyCount(s.workers)
  }

  /** In every run nobody sleeps while there is what it waits for. Waiting for any block of the current batch that has
      not been returned yet is not in vain: it is prepared, or some worker can take or finish a block; each of these
      steps leaves less work, and going to sleep or waking up does not leave more. */
  lemma {:induction false} WaitingEnds(run: seq<State>, steps: seq<Step>, threads: nat, prepare: Preparation, h: Height)
    requires IsRun(run, steps, threads, prepare) && threads > 0
    requires var s := run[|steps|]; s.batch.start <= h < s.batch.start + |s.batch.blocks| && h !in s.returned
    ensures var s := run[|steps|];
            && NobodyOversleeps(s)
            && (h in s.prepared || exists w: nat :: Enabled(s, Take(w)) || Enabled(s, Finish(w)))
            && (forall w: nat | Enabled(s, Take(w)) :: WorkLeft(Next(s, Take(w), prepare)) < WorkLeft(s))
            && (forall w: nat | Enabled(s, Finish(w)) :: WorkLeft(Next(s, Finish(w), prepare)) < WorkLeft(s))
            && (forall w: nat | Enabled(s, Sleep(w)) :: WorkLeft(Next(s, Sleep(w), prepare)) == WorkLeft(s))
            && (forall w: nat | Enabled(s, Wake(w)) :: WorkLeft(Next(s, Wake(w), prepare)) == WorkLeft(s))
  {
    hide Valid, Next, WorkLeft;
    RunIsValid(run, steps, threads, prepare);
    WorkerSteps(run[|steps|], prepare);
    NobodyWaitsInVain(run[|steps|], h, prepare);
  }

  lemma {:induction false} NobodyWaitsInVain(s: State, h: Height, prepare: Preparation)
    requires Valid(s, prepare) && s.workers != [] && s.batch.start <= h < s.batch.start + |s.batch.blocks|
             && h !in s.returned
    ensures NobodyOversleeps(s)
    ensures h in s.prepared || exists w: nat :: Enabled(s, Take(w)) || Enabled(s, Finish(w))
  {
    if h < Handed(s) {
      if InWork(s, h) {
        var w: nat :| IsCurrent(s, w) && s.workers[w].job.height == h;
        assert Enabled(s, Finish(w));
      }
    } else {
      assert !s.workers[0].Asleep?;
      assert if s.workers[0].Free? then Enabled(s, Take(0)) else Enabled(s, Finish(0));
    }
  }

  lemma {:induction false} WorkerSteps(s: State, prepare: Preparation)
    ensures forall w: nat | Enabled(s, Take(w)) :: WorkLeft(Next(s, Take(w), prepare)) < WorkLeft(s)
    ensures forall w: nat | Enabled(s, Finish(w)) :: WorkLeft(Next(s, Finish(w), prepare)) < WorkLeft(s)
    ensures forall w: nat | Enabled(s, Sleep(w)) :: WorkLeft(Next(s, Sleep(w), prepare)) == WorkLeft(s)
    ensures forall w: nat | Enabled(s, Wake(w)) :: WorkLeft(Next(s, Wake(w), prepare)) == WorkLeft(s)
  {
    hide BusyCount;
    forall w: nat | Enabled(s, Take(w))
      ensures WorkLeft(Next(s, Take(w), prepare)) < WorkLeft(s)
    {
      BusyCountAfter(s.workers, w, Busy(Job(s.counter, s.work.start, s.work.blocks[0], s.key)));
    }
    forall w: nat | Enabled(s, Finish(w))
      ensures WorkLeft(Next(s, Finish(w), prepare)) < WorkLeft(s)
    {
      BusyCountAfter(s.workers, w, Free);
    }
    forall w: nat | Enabled(s, Sleep(w))
      ensures WorkLeft(Next(s, Sleep(w), prepare)) == WorkLeft(s)
    {
      BusyCountAfter(s.workers, w, Asleep);
    }
    forall w: nat | Enabled(s, Wake(w))
      ensures WorkLeft(Next(s, Wake(w), prepare)) == WorkLeft(s)
    {
      BusyCountAfter(s.workers, w, Free);
    }
  }

  predicate OnlyWork(steps: seq<Step>) {
    forall t <- steps :: t.Take? || t.Finish?
  }

  lemma {:induction false} WorkGoesOn(s: State, t: Step, prepare: Preparation)
    requires Valid(s, prepare) && Enabled(s, t) && (t.Take? || t.Finish?)
    ensures var v := Next(s, t, prepare);
            && Valid(v, prepare) && v.batch == s.batch && v.returned == s.returned && |v.workers| == |s.workers|
            && WorkLeft(v) < WorkLeft(s)
  {
    StepKeepsValid(s, t, prepare);
    WorkerSteps(s, prepare);
    hide Valid, WorkLeft;
  }

  lemma {:induction false} WorkLeadsToBlock(s: State, h: Height, prepare: Preparation) returns (steps: seq<Step>)
    requires Valid(s, prepare) && s.workers != []
    requires s.batch.start <= h < s.batch.start + |s.batch.blocks| && h !in s.returned
    ensures OnlyWork(steps) && |steps| <= WorkLeft(s) && After(s, steps, prepare).Some?
    ensures var v := After(s, steps, prepare).value;
            h in v.prepared && v.waiting != Some(h) && v.batch == s.batch && v.returned == s.returned
    decreases WorkLeft(s)
  {
    NobodyWaitsInVain(s, h, prepare);
    if h in s.prepared {
      steps := [];
    } else {
      hide Valid, WorkLeft;
      var w: nat :| Enabled(s, Take(w)) || Enabled(s, Finish(w));
      var t := if Enabled(s, Take(w)) then Take(w) else Finish(w);
      WorkGoesOn(s, t, prepare);
      var rest := WorkLeadsToBlock(Next(s, t, prepare), h, prepare);
      steps := [t] + rest;
      assert steps[1..] == rest;
    }
  }

  /** From every reachable state, steps of the workers alone, and no more of them than there is work left, prepare any
      block of the batch that was not returned yet, and a client that waits for it is awake then. */
  lemma {:induction false} BlockComes(run: seq<State>, steps: seq<Step>, threads: nat, prepare: Preparation, h: Height)
    requires IsRun(run, steps, threads, prepare) && threads > 0
    requires var s := run[|steps|]; s.batch.start <= h < s.batch.start + |s.batch.blocks| && h !in s.returned
    ensures var s := run[|steps|];
            exists more: seq<Step> | OnlyWork(more) && |more| <= WorkLeft(s) && After(s, more, prepare).Some? ::
              var v := After(s, more, prepare).value;
              h in v.prepared && v.waiting != Some(h) && v.batch == s.batch && v.returned == s.returned
  {
    hide Valid, WorkLeft;
    RunIsValid(run, steps, threads, prepare);
    var more := WorkLeadsToBlock(run[|steps|], h, prepare);
  }
}
