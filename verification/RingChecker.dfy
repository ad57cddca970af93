/** Checking the ring signatures of a block on several threads. Every section that runs under the mutex is one step; a
    run is any sequence of steps, so every interleaving of the client and the workers is one. */
module RingChecking {
  import opened ChainTypes
  import opened Spending
  import opened Replaying
  import opened WorkerPool

  datatype Result = Good | InvalidSignatures | CorruptedSignatures

  type Check = RingArg -> Result

  /** A client that waits for the answer sleeps until a result is reported. */
  datatype Client = Idle | Pushing(rest: seq<RingArg>) | Counted(rest: seq<RingArg>) | Waiting(asleep: bool)

  datatype Job = Job(counter: nat, arg: RingArg)

  /** batch, done and lost are history: what the last start_work was asked to check, what has been counted as ready
      since then, and what a cancel_work has thrown away since then. */
  datatype State = State(
    total: nat, ready: nat, errors: seq<Result>, args: seq<RingArg>, counter: nat, workers: seq<Worker<Job>>,
        client: Client,
    batch: seq<RingArg>, done: seq<RingArg>, lost: seq<RingArg>)

  function Init(threads: nat): State {
    State(0, 0, [], [], 0, seq(threads, _ => Free), Idle, [], [], [])
  }

  datatype Step =
    | Start(batch: seq<RingArg>) // start_work_get_error begins; it will push this batch
    | Count                      // it counts an input
    | Push                       // it hands the input to the workers
    | Ready                      // it returns without an error
    | Fail                       // it returns with an error
    | Cancel
    | Take(worker: nat)          // a worker takes an input
    | Finish(worker: nat)        // and reports its result
    | Sleep(worker: nat)         // a worker finds nothing to do
    | Wake(worker: nat)          // and wakes up although nobody notified it
    | ClientSleep                // signatures_valid finds that results are missing
    | ClientWake                 // and wakes up although nobody notified it

  predicate Enabled(s: State, t: Step) {
    match t
    case Start(_) => s.client.Idle? || s.client == Waiting(false)
    case Count => s.client.Pushing? && s.client.rest != []
    case Push => s.client.Counted? && s.client.rest != []
    case Ready => s.client == Pushing([])
    case Fail => s.client.Pushing?
    case Cancel => true
    case Take(w) => w < |s.workers| && s.workers[w].Free? && s.args != []
    case Finish(w) => w < |s.workers| && s.workers[w].Busy?
    case Sleep(w) => w < |s.workers| && s.workers[w].Free? && s.args == []
    case Wake(w) => w < |s.workers| && s.workers[w].Asleep?
    case ClientSleep => s.client == Waiting(false) && s.ready != s.total
    case ClientWake => s.client == Waiting(true)
  }

  function Next(s: State, t: Step, check: Check): State
    requires Enabled(s, t)
  {
    match t
    case Start(batch) =>
      s.(args := [], errors := [], ready := 0, counter := s.counter + 1, total := 0, client := Pushing(batch),
         batch := batch, done := [], lost := [])
    case Count => s.(total := s.total + 1, client := Counted(s.client.rest))
    case Push => s.(args := s.args + [s.client.rest[0]], client := Pushing(s.client.rest[1..]),
        workers := Woken(s.workers))
    case Ready => s.(client := Waiting(false))
    case Fail => s.(client := Idle)
    case Cancel => s.(args := [], counter := s.counter + 1, lost := s.lost + s.args + Current(s.workers, s.counter))
    case Take(w) => s.(args := s.args[1..], workers := s.workers[w := Busy(Job(s.counter, s.args[0]))])
    case Finish(w) =>
      var v := s.(workers := s.workers[w := Free]);
      var job := s.workers[w].job;
      if job.counter != s.counter then v
      else
        var r := check(job.arg);
        v.(ready := s.ready + 1, errors := if r.Good? then s.errors else s.errors + [r], done := s.done + [job.arg],
           client := if s.client.Waiting? then Waiting(false) else s.client)
    case Sleep(w) => s.(workers := s.workers[w := Asleep])
    case Wake(w) => s.(workers := s.workers[w := Free])
    case ClientSleep => s.(client := Waiting(true))
    case ClientWake => s.(client := Waiting(false))
  }

  ghost predicate IsRun(run: seq<State>, steps: seq<Step>, threads: nat, check: Check) {
    && |run| == |steps| + 1 && run[0] == Init(threads)
    && forall i | 0 <= i < |steps| :: Enabled(run[i], steps[i]) && run[i + 1] == Next(run[i], steps[i], check)
  }

  /** The inputs that workers are checking for the current batch. */
  function Current(workers: seq<Worker<Job>>, counter: nat): seq<RingArg> {
    if workers == [] then []
    else
      var n := |workers| - 1;
      Current(workers[..n], counter) + CurrentOne(workers[n], counter)
  }

  function CurrentOne(w: Worker<Job>, counter: nat): seq<RingArg> {
    if w.Busy? && w.job.counter == counter then [w.job.arg] else []
  }

  function Pushed(s: State): seq<RingArg> {
    match s.client
    case Pushing(rest) => if |rest| <= |s.batch| then s.batch[..|s.batch| - |rest|] else []
    case Counted(rest) => if |rest| <= |s.batch| then s.batch[..|s.batch| - |rest|] else []
    case _ => s.batch
  }

  // ---- the invariant ----

  function Count(args: seq<RingArg>, a: RingArg): nat {
    multiset(args)[a]
  }

  lemma {:induction false} CountAppend(xs: seq<RingArg>, ys: seq<RingArg>, a: RingArg)
    ensures Count(xs + ys, a) == Count(xs, a) + Count(ys, a)
  {
  }

  function Places(s: State, a: RingArg): nat {
    Count(s.done, a) + Count(Current(s.workers, s.counter), a) + Count(s.args, a) + Count(s.lost, a)
  }

  /** Every input that was handed over is in exactly one place. */
  ghost predicate Accounted(s: State) {
    && |Pushed(s)| == Size(s)
    && forall a: RingArg :: Count(Pushed(s), a) == Places(s, a)
  }

  ghost predicate RestIsLast(s: State) {
    (s.client.Pushing? || s.client.Counted?) ==>
      |s.client.rest| <= |s.batch| && s.client.rest == s.batch[|s.batch| - |s.client.rest|..]
  }

  ghost predicate Valid(s: State, check: Check) {
    && RestIsLast(s)
    && (s.client.Counted? ==> s.client.rest != [])
    && s.ready == |s.done|
    && (s.errors == [] <==> forall a <- s.done :: check(a).Good?)
    && (!s.client.Idle? ==> Accounted(s) && s.total == |Pushed(s)| + if s.client.Counted? then 1 else 0)
    && (forall w <- s.workers | w.Busy? :: w.job.counter <= s.counter)
    && NobodyOversleeps(s)
  }

  /** Nobody sleeps while there is what it waits for: no worker while there is an input, nor the client when the answer
      is ready. */
  ghost predicate NobodyOversleeps(s: State) {
    (s.args != [] ==> forall w <- s.workers :: !w.Asleep?) && (s.client == Waiting(true) ==> s.ready != s.total)
  }

  lemma {:induction false} CurrentOfStale(workers: seq<Worker<Job>>, counter: nat)
    requires forall w <- workers | w.Busy? :: w.job.counter < counter
    ensures Current(workers, counter) == []
  {
    if workers != [] {
      CurrentOfStale(workers[..|workers| - 1], counter);
    }
  }

  /** One worker changes what it does. */
  lemma {:induction false} CurrentAfter(workers: seq<Worker<Job>>, w: nat, v: Worker<Job>, counter: nat, a: RingArg)
    requires w < |workers|
    ensures Count(Current(workers[w := v], counter), a) + Count(CurrentOne(workers[w], counter), a) ==
            Count(Current(workers, counter), a) + Count(CurrentOne(v, counter), a)
    ensures |Current(workers[w := v], counter)| + |CurrentOne(workers[w], counter)| ==
            |Current(workers, counter)| + |CurrentOne(v, counter)|
  {
    hide CurrentOne, Count;
    var n := |workers| - 1;
    var after := workers[w := v];
    CountAppend(Current(after[..n], counter), CurrentOne(after[n], counter), a);
    CountAppend(Current(workers[..n], counter), CurrentOne(workers[n], counter), a);
    if w == n {
      assert after[..n] == workers[..n] && after[n] == v;
    } else {
      CurrentAfter(workers[..n], w, v, counter, a);
      assert after[..n] == workers[..n][w := v] && after[n] == workers[n];
    }
  }

  lemma {:induction false} CurrentWoken(workers: seq<Worker<Job>>, counter: nat)
    ensures Current(Woken(workers), counter) == Current(workers, counter)
  {
    if workers != [] {
      CurrentWoken(workers[..|workers| - 1], counter);
    }
  }

  lemma {:induction false} PushedNext(s: State, check: Check)
    requires RestIsLast(s) && Enabled(s, Push)
    ensures Pushed(Next(s, Push, check)) == Pushed(s) + [s.client.rest[0]]
  {
    var n := |s.batch| - |s.client.rest|;
    assert s.batch[n..][0] == s.batch[n];
    assert s.batch[..n + 1] == s.batch[..n] + [s.batch[n]];
  }

  function Size(s: State): nat {
    |s.done| + |Current(s.workers, s.counter)| + |s.args| + |s.lost|
  }

  lemma {:induction false} TakeMoves(s: State, w: nat, check: Check, a: RingArg)
    requires Enabled(s, Take(w))
    ensures Places(Next(s, Take(w), check), a) == Places(s, a) && Size(Next(s, Take(w), check)) == Size(s)
  {
    hide Current, Count;
    CurrentAfter(s.workers, w, Busy(Job(s.counter, s.args[0])), s.counter, a);
    CountNone(a);
    CountAppend([s.args[0]], s.args[1..], a);
    assert s.args == [s.args[0]] + s.args[1..];
  }

  lemma {:induction false} FinishMoves(s: State, w: nat, check: Check, a: RingArg)
    requires Enabled(s, Finish(w))
    ensures Places(Next(s, Finish(w), check), a) == Places(s, a) && Size(Next(s, Finish(w), check)) == Size(s)
  {
    hide Current, Count;
    CurrentAfter(s.workers, w, Free, s.counter, a);
    CountNone(a);
    CountAppend(s.done, [s.workers[w].job.arg], a);
  }

  lemma {:induction false} SleepMoves(s: State, w: nat, v: Worker<Job>, a: RingArg)
    requires w < |s.workers| && !s.workers[w].Busy? && !v.Busy?
    ensures var t := s.(workers := s.workers[w := v]); Places(t, a) == Places(s, a) && Size(t) == Size(s)
  {
    hide Current, Count;
    CurrentAfter(s.workers, w, v, s.counter, a);
  }

  /** A step of a worker moves an input from one place to another, or none. */
  lemma {:induction false} WorkerMoves(s: State, t: Step, check: Check, a: RingArg)
    requires Enabled(s, t) && (t.Take? || t.Finish? || t.Sleep? || t.Wake?)
    ensures Places(Next(s, t, check), a) == Places(s, a) && Size(Next(s, t, check)) == Size(s)
  {
    hide Places, Size, Current;
    match t
    case Take(w) => TakeMoves(s, w, check, a);
    case Finish(w) => FinishMoves(s, w, check, a);
    case Sleep(w) => SleepMoves(s, w, Asleep, a);
    case Wake(w) => SleepMoves(s, w, Free, a);
  }

  lemma {:induction false} WorkerKeepsAccounts(s: State, t: Step, check: Check)
    requires Accounted(s) && Enabled(s, t) && (t.Take? || t.Finish? || t.Sleep? || t.Wake?)
    ensures Accounted(Next(s, t, check))
  {
    var v := Next(s, t, check);
    assert Pushed(v) == Pushed(s);
    hide Pushed, Places, Next, Size, Enabled;
    var some: RingArg :| true;
    WorkerMoves(s, t, check, some);
    forall a: RingArg
      ensures Count(Pushed(v), a) == Places(v, a)
    {
      assert Count(Pushed(s), a) == Places(s, a);
      WorkerMoves(s, t, check, a);
    }
  }

  lemma {:induction false} CountNone(a: RingArg)
    ensures Count([], a) == 0
  {
  }

  lemma {:induction false} PushKeepsAccounts(s: State, check: Check)
    requires Accounted(s) && RestIsLast(s) && Enabled(s, Push)
    ensures Accounted(Next(s, Push, check))
  {
    var v, x := Next(s, Push, check), s.client.rest[0];
    PushedNext(s, check);
    CurrentWoken(s.workers, s.counter);
    assert v.args == s.args + [x] && v.done == s.done && v.lost == s.lost;
    hide Current, Count, Pushed, RestIsLast, Next;
    forall a: RingArg
      ensures Count(Pushed(v), a) == Places(v, a)
    {
      assert Count(Pushed(s), a) == Places(s, a);
      CountAppend(Pushed(s), [x], a);
      CountAppend(s.args, [x], a);
    }
  }

  lemma {:induction false} ClientKeepsAccounts(s: State, t: Step, check: Check)
    requires Accounted(s) && Enabled(s, t) && (t.Count? || t.Ready? || t.ClientSleep? || t.ClientWake?)
    ensures Accounted(Next(s, t, check))
  {
    var v := Next(s, t, check);
    assert s.batch[..|s.batch|] == s.batch;
    assert Pushed(v) == Pushed(s);
    assert v == s.(total := v.total, client := v.client);
    hide Next, Enabled, Pushed;
    SamePlaces(s, v);
  }

  lemma {:induction false} SamePlaces(s: State, v: State)
    requires Accounted(s) && Pushed(v) == Pushed(s) && v == s.(total := v.total, client := v.client)
    ensures Accounted(v)
  {
    hide Current, Count, Pushed;
    forall a: RingArg
      ensures Count(Pushed(v), a) == Places(v, a)
    {
      assert Count(Pushed(s), a) == Places(s, a);
    }
  }

  lemma {:induction false} CancelKeepsAccounts(s: State, check: Check)
    requires Accounted(s) && forall w <- s.workers | w.Busy? :: w.job.counter <= s.counter
    ensures Accounted(Next(s, Cancel, check))
  {
    var v := Next(s, Cancel, check);
    CurrentOfStale(s.workers, v.counter);
    assert Pushed(v) == Pushed(s);
    hide Current, Count, Pushed;
    forall a: RingArg
      ensures Count(Pushed(v), a) == Places(v, a)
    {
      assert Count(Pushed(s), a) == Places(s, a);
      CountNone(a);
      CountAppend(s.lost + s.args, Current(s.workers, s.counter), a);
      CountAppend(s.lost, s.args, a);
    }
  }

  lemma {:induction false} StartHasAccounts(s: State, batch: seq<RingArg>, check: Check)
    requires Enabled(s, Start(batch)) && forall w <- s.workers | w.Busy? :: w.job.counter <= s.counter
    ensures Accounted(Next(s, Start(batch), check))
  {
    CurrentOfStale(s.workers, s.counter + 1);
    hide Current;
    assert Pushed(Next(s, Start(batch), check)) == [];
  }

  lemma {:induction false} StepKeepsRest(s: State, t: Step, check: Check)
    requires RestIsLast(s) && (s.client.Counted? ==> s.client.rest != []) && Enabled(s, t)
    ensures var v := Next(s, t, check);
            RestIsLast(v) && (v.client.Counted? ==> v.client.rest != []) && |v.workers| == |s.workers|
  {
    hide Current, RestIsLast;
    var v := Next(s, t, check);
    assert |v.workers| == |s.workers|;
    if t.Start? || t.Push? {
      RestAfter(s, t, check);
    } else {
      SameRest(s, v);
    }
  }

  lemma {:induction false} SameRest(s: State, v: State)
    requires RestIsLast(s) && v.batch == s.batch
    requires v.client.Pushing? || v.client.Counted? ==>
             (s.client.Pushing? || s.client.Counted?) && v.client.rest == s.client.rest
    ensures RestIsLast(v)
  {
  }

  lemma {:induction false} RestAfter(s: State, t: Step, check: Check)
    requires RestIsLast(s) && Enabled(s, t) && (t.Start? || t.Push?)
    ensures RestIsLast(Next(s, t, check))
  {
    if t.Push? {
      var n := |s.batch| - |s.client.rest|;
      assert s.batch[n..][1..] == s.batch[n + 1..];
    } else {
      assert t.batch[0..] == t.batch;
    }
  }

  lemma {:induction false} StepKeepsTotal(s: State, t: Step, check: Check)
    requires RestIsLast(s) && Enabled(s, t)
             && (!t.Start? && !s.client.Idle? ==> s.total == |Pushed(s)| + if s.client.Counted? then 1 else 0)
    ensures var v := Next(s, t, check); !v.client.Idle? ==> v.total == |Pushed(v)| + if v.client.Counted? then 1 else 0
  {
  }

  lemma {:induction false} StepKeepsResults(s: State, t: Step, check: Check)
    requires s.ready == |s.done| && (s.errors == [] <==> forall a <- s.done :: check(a).Good?) && Enabled(s, t)
    ensures var v := Next(s, t, check);
            v.ready == |v.done| && (v.errors == [] <==> forall a <- v.done :: check(a).Good?)
  {
    var v := Next(s, t, check);
    assert forall a :: a in v.done && a !in s.done ==> t.Finish? && a == s.workers[t.worker].job.arg;
    if t.Finish? && v.done != s.done {
      assert s.workers[t.worker].job.arg in v.done;
      assert forall a <- s.done :: a in v.done;
    }
  }

  /** Each step keeps the accounts, whoever makes it. */
  lemma {:induction false} StepKeepsValid(s: State, t: Step, check: Check)
    requires Valid(s, check) && Enabled(s, t)
    ensures Valid(Next(s, t, check), check) && |Next(s, t, check).workers| == |s.workers|
  {
    StepKeepsRest(s, t, check);
    StepKeepsTotal(s, t, check);
    StepKeepsResults(s, t, check);
    StepKeepsCounters(s, t, check);
    StepWakes(s, t, check);
    StepKeepsAccounts(s, t, check);
    hide Accounted, RestIsLast, NobodyOversleeps, Pushed, Next;
  }

  lemma {:induction false} StepWakes(s: State, t: Step, check: Check)
    requires NobodyOversleeps(s) && Enabled(s, t)
    ensures NobodyOversleeps(Next(s, t, check))
  {
  }

  lemma {:induction false} StepKeepsAccounts(s: State, t: Step, check: Check)
    requires Valid(s, check) && Enabled(s, t)
    ensures var v := Next(s, t, check); !v.client.Idle? ==> Accounted(v)
  {
    hide Accounted, Pushed;
    match t
    case Start(batch) => StartHasAccounts(s, batch, check);
    case Fail =>
    case Cancel =>
      if !s.client.Idle? {
        CancelKeepsAccounts(s, check);
      }
    case Push => PushKeepsAccounts(s, check);
    case Count => ClientKeepsAccounts(s, t, check);
    case Ready => ClientKeepsAccounts(s, t, check);
    case ClientSleep => ClientKeepsAccounts(s, t, check);
    case ClientWake => ClientKeepsAccounts(s, t, check);
    case _ =>
      if !s.client.Idle? {
        WorkerKeepsAccounts(s, t, check);
      }
  }

  lemma {:induction false} StepKeepsCounters(s: State, t: Step, check: Check)
    requires Enabled(s, t) && forall w <- s.workers | w.Busy? :: w.job.counter <= s.counter
    ensures var v := Next(s, t, check); forall w <- v.workers | w.Busy? :: w.job.counter <= v.counter
  {
  }

  lemma {:induction false} RunIsValid(run: seq<State>, steps: seq<Step>, threads: nat, check: Check)
    requires IsRun(run, steps, threads, check)
    ensures Valid(run[|steps|], check) && |run[|steps|].workers| == threads
  {
    hide Valid, Enabled, Next;
    if steps == [] {
      InitIsValid(threads, check);
    } else {
      var n := |steps| - 1;
      RunIsValid(run[..n + 1], steps[..n], threads, check);
      StepKeepsValid(run[n], steps[n], check);
    }
  }

  lemma {:induction false} InitIsValid(threads: nat, check: Check)
    ensures Valid(Init(threads), check) && |Init(threads).workers| == threads
  {
    CurrentOfStale(Init(threads).workers, 0);
  }

  // ---- what signatures_valid returns ----

  /** signatures_valid returns, and what it returns. */
  predicate Returns(s: State) {
    s.client == Waiting(false) && s.ready == s.total
  }

  predicate Answer(s: State) {
    s.errors == []
  }

  function RingCheckOf(check: Check): RingCheck {
    (tx: Transaction, input: nat, keys: seq<PublicKey>) => check(RingArg(tx, input, keys)).Good?
  }

  /** In every run, whatever the workers and earlier batches do: when signatures_valid returns, the answer is whether
      all checks of the current batch succeed. */
  lemma {:induction false} AnswerIsRight(run: seq<State>, steps: seq<Step>, threads: nat, check: Check)
    requires IsRun(run, steps, threads, check) && Returns(run[|steps|])
    ensures var s := run[|steps|];
            && Answer(s) == ArgsValid(s.batch, RingCheckOf(check))
            && s.args == [] && s.lost == [] && multiset(s.done) == multiset(s.batch)
  {
    var s := run[|steps|];
    RunIsValid(run, steps, threads, check);
    forall a: RingArg
      ensures multiset(s.done)[a] == multiset(s.batch)[a]
    {
      assert Count(Pushed(s), a) == Places(s, a);
    }
    assert multiset(s.done) == multiset(s.batch);
    SameElements(s.done, s.batch);
    assert Answer(s) <==> forall a <- s.batch :: check(a).Good?;
    ArgsValidByElement(s.batch, check);
  }

  lemma {:induction false} SameElements(xs: seq<RingArg>, ys: seq<RingArg>)
    requires multiset(xs) == multiset(ys)
    ensures forall a :: a in xs <==> a in ys
  {
    forall a
      ensures a in xs <==> a in ys
    {
      assert a in xs <==> a in multiset(xs);
    }
  }

  lemma {:induction false} ArgsValidByElement(batch: seq<RingArg>, check: Check)
    ensures ArgsValid(batch, RingCheckOf(check)) <==> forall a <- batch :: check(a).Good?
  {
    forall i | 0 <= i < |batch|
      ensures check(batch[i]).Good? <==> RingCheckOf(check)(batch[i].tx, batch[i].input, batch[i].keys)
    {
      assert batch[i] == RingArg(batch[i].tx, batch[i].input, batch[i].keys);
    }
  }

  /** For a block: the answer is whether every key input is signed for the keys that its ring resolves to. */
  lemma {:induction false} AnswerForBlock(run: seq<State>, steps: seq<Step>, threads: nat, check: Check,
                                          l: Ledgers.Ledger,
                       txs: seq<Transaction>, h: Height, ts: nat)
    requires IsRun(run, steps, threads, check) && Returns(run[|steps|])
    requires BlockArgs(l, txs, h, ts) == Some(run[|steps|].batch)
    ensures Answer(run[|steps|]) <==> SignaturesValid(l, txs, h, ts, RingCheckOf(check))
  {
    AnswerIsRight(run, steps, threads, check);
    BlockArgsMeaning(l, txs, h, ts, RingCheckOf(check));
  }

  // ---- workers of earlier batches ----

  /** Only the workers of the current batch. */
  function Fresh(workers: seq<Worker<Job>>, counter: nat): (r: seq<Worker<Job>>)
    ensures |r| == |workers|
    ensures forall w: nat | w < |workers| ::
              r[w] == if workers[w].Busy? && workers[w].job.counter != counter then Free else workers[w]
  {
    seq(|workers|, w requires 0 <= w < |workers| =>
          if workers[w].Busy? && workers[w].job.counter != counter then Free else workers[w])
  }

  function Forget(s: State): State {
    s.(workers := Fresh(s.workers, s.counter))
  }

  predicate IsStale(s: State, t: Step) {
    t.Finish? && t.worker < |s.workers| && s.workers[t.worker].Busy? && s.workers[t.worker].job.counter != s.counter
  }

  /** The steps of a run without those by which a worker of an earlier batch reports. */
  function WithoutStale(run: seq<State>, steps: seq<Step>): seq<Step>
    requires |run| == |steps| + 1
    decreases |steps|
  {
    if steps == [] then []
    else
      var n := |steps| - 1;
      WithoutStale(run[..n + 1], steps[..n]) + if IsStale(run[n], steps[n]) then [] else [steps[n]]
  }

  /** The same machine with the worker of a batch stopped at the moment the batch ends; None when a step cannot be
      made. */
  function IdealAfter(threads: nat, steps: seq<Step>, check: Check): Option<State> {
    if steps == [] then Some(Init(threads))
    else
      var n := |steps| - 1;
      match IdealAfter(threads, steps[..n], check)
      case None => None
      case Some(s) => if Enabled(s, steps[n]) then Some(Forget(Next(s, steps[n], check))) else None
  }

  lemma {:induction false} CurrentFresh(workers: seq<Worker<Job>>, counter: nat)
    ensures Current(Fresh(workers, counter), counter) == Current(workers, counter)
  {
    if workers != [] {
      var n := |workers| - 1;
      CurrentFresh(workers[..n], counter);
      assert Fresh(workers, counter)[..n] == Fresh(workers[..n], counter);
    }
  }

  lemma {:induction false} ForgetStale(s: State, t: Step, check: Check)
    requires Enabled(s, t) && IsStale(s, t)
    ensures Forget(Next(s, t, check)) == Forget(s)
  {
    assert Fresh(Next(s, t, check).workers, s.counter) == Fresh(s.workers, s.counter);
  }

  lemma {:induction false} ForgetStep(s: State, t: Step, check: Check)
    requires Enabled(s, t) && !IsStale(s, t) && forall w <- s.workers | w.Busy? :: w.job.counter <= s.counter
    ensures Enabled(Forget(s), t) && Forget(Next(Forget(s), t, check)) == Forget(Next(s, t, check))
  {
    hide Current;
    CurrentFresh(s.workers, s.counter);
    var u, v := Next(Forget(s), t, check), Next(s, t, check);
    assert u == v.(workers := u.workers);
    ForgetWorkers(s, t, check);
    hide Next, Fresh;
  }

  lemma {:induction false} ForgetWorkers(s: State, t: Step, check: Check)
    requires Enabled(s, t) && Enabled(Forget(s), t) && !IsStale(s, t)
    requires forall w <- s.workers | w.Busy? :: w.job.counter <= s.counter
    ensures var u, v := Next(Forget(s), t, check), Next(s, t, check);
            Fresh(u.workers, v.counter) == Fresh(v.workers, v.counter)
  {
    hide Current;
    var u, v := Next(Forget(s), t, check), Next(s, t, check);
    forall w: nat | w < |s.workers|
      ensures Fresh(u.workers, v.counter)[w] == Fresh(v.workers, v.counter)[w]
    {
      assert s.workers[w] in s.workers;
    }
  }

  lemma {:induction false} IdealFollows(run: seq<State>, steps: seq<Step>, threads: nat, check: Check)
    requires IsRun(run, steps, threads, check)
    ensures IdealAfter(threads, WithoutStale(run, steps), check) == Some(Forget(run[|steps|]))
  {
    hide Next, Enabled, Valid, Forget;
    if steps == [] {
      InitIsIdeal(threads);
    } else {
      var n := |steps| - 1;
      var before, kept := WithoutStale(run[..n + 1], steps[..n]), WithoutStale(run, steps);
      IdealFollows(run[..n + 1], steps[..n], threads, check);
      RunIsValid(run[..n + 1], steps[..n], threads, check);
      ValidCounters(run[n], check);
      if IsStale(run[n], steps[n]) {
        ForgetStale(run[n], steps[n], check);
        assert kept == before;
      } else {
        ForgetStep(run[n], steps[n], check);
        assert kept == before + [steps[n]] && kept[..|kept| - 1] == before;
      }
    }
  }

  lemma {:induction false} InitIsIdeal(threads: nat)
    ensures Forget(Init(threads)) == Init(threads)
  {
    assert Fresh(Init(threads).workers, 0) == Init(threads).workers;
  }

  lemma {:induction false} ValidCounters(s: State, check: Check)
    requires Valid(s, check)
    ensures forall w <- s.workers | w.Busy? :: w.job.counter <= s.counter
  {
  }

  /** Workers of earlier batches, and of cancelled ones, do not interfere: without their reports the run is a run of the
      machine in which they have stopped, and that ends in the same state but for these workers, with the same
      answer. */
  lemma {:induction false} StaleWorkersDoNotCount(run: seq<State>, steps: seq<Step>, threads: nat, check: Check)
    requires IsRun(run, steps, threads, check)
    ensures var s, ideal := run[|steps|], IdealAfter(threads, WithoutStale(run, steps), check);
            && ideal.Some? && ideal.value == s.(workers := ideal.value.workers)
            && Returns(ideal.value) == Returns(s) && Answer(ideal.value) == Answer(s)
            && forall w <- ideal.value.workers | w.Busy? :: w.job.counter == s.counter
  {
    IdealFollows(run, steps, threads, check);
    hide IsRun, IdealAfter;
  }

  /** A stale worker never becomes current again: the counter of a batch only grows. */
  lemma {:induction false} CounterGrows(run: seq<State>, steps: seq<Step>, threads: nat, check: Check, i: nat)
    requires IsRun(run, steps, threads, check) && i <= |steps|
    ensures run[i].counter <= run[|steps|].counter
    ensures (exists k | i <= k < |steps| :: steps[k].Start?) ==> run[i].counter < run[|steps|].counter
    decreases |steps|
  {
    if i < |steps| {
      var n := |steps| - 1;
      CounterGrows(run[..n + 1], steps[..n], threads, check, i);
      if k :| i <= k < |steps| && steps[k].Start? {
        assert k < n ==> steps[..n][k].Start?;
      }
    }
  }

  // ---- the client never waits for nothing ----

  function WorkLeft(s: State): nat {
    2 * |s.args| + BusyCount(s.workers)
  }

  lemma {:induction false} CurrentIsSomebody(workers: seq<Worker<Job>>, counter: nat)
    requires Current(workers, counter) != []
    ensures exists w: nat | w < |workers| :: workers[w].Busy?
  {
    var n := |workers| - 1;
    if Current(workers[..n], counter) != [] {
      CurrentIsSomebody(workers[..n], counter);
      var w: nat :| w < n && workers[..n][w].Busy?;
      assert workers[w].Busy?;
    } else {
      assert workers[n].Busy?;
    }
  }

  /** In every run nobody sleeps while there is what it waits for. While the client waits for a batch that was not
      cancelled and has no answer yet, some worker can take or finish an input, without being notified first; each of
      these steps leaves less work, and going to sleep or waking up does not leave more. */
  lemma {:induction false} WaitingEnds(run: seq<State>, steps: seq<Step>, threads: nat, check: Check)
    requires IsRun(run, steps, threads, check) && threads > 0
    ensures var s := run[|steps|];
            && NobodyOversleeps(s)
            && (s.client.Waiting? && s.ready != s.total && s.lost == [] ==>
                exists w: nat :: Enabled(s, Take(w)) || Enabled(s, Finish(w)))
            && (forall w: nat | Enabled(s, Take(w)) :: WorkLeft(Next(s, Take(w), check)) < WorkLeft(s))
            && (forall w: nat | Enabled(s, Finish(w)) :: WorkLeft(Next(s, Finish(w), check)) < WorkLeft(s))
            && (forall w: nat | Enabled(s, Sleep(w)) :: WorkLeft(Next(s, Sleep(w), check)) == WorkLeft(s))
            && (forall w: nat | Enabled(s, Wake(w)) :: WorkLeft(Next(s, Wake(w), check)) == WorkLeft(s))
  {
    hide Valid, NobodyOversleeps, Next, WorkLeft;
    RunIsValid(run, steps, threads, check);
    WorkerSteps(run[|steps|], check);
    NobodyWaitsInVain(run[|steps|], check);
  }

  lemma {:induction false} NobodyWaitsInVain(s: State, check: Check)
    requires Valid(s, check) && s.workers != []
    ensures NobodyOversleeps(s)
    ensures s.client.Waiting? && s.ready != s.total && s.lost == [] ==>
            exists w: nat :: Enabled(s, Take(w)) || Enabled(s, Finish(w))
  {
    if s.client.Waiting? && s.ready != s.total && s.lost == [] {
      SomebodyWorks(s, check);
    }
  }

  lemma {:induction false} WorkerSteps(s: State, check: Check)
    ensures forall w: nat | Enabled(s, Take(w)) :: WorkLeft(Next(s, Take(w), check)) < WorkLeft(s)
    ensures forall w: nat | Enabled(s, Finish(w)) :: WorkLeft(Next(s, Finish(w), check)) < WorkLeft(s)
    ensures forall w: nat | Enabled(s, Sleep(w)) :: WorkLeft(Next(s, Sleep(w), check)) == WorkLeft(s)
    ensures forall w: nat | Enabled(s, Wake(w)) :: WorkLeft(Next(s, Wake(w), check)) == WorkLeft(s)
  {
    hide BusyCount, Current;
    forall w: nat | Enabled(s, Take(w))
      ensures WorkLeft(Next(s, Take(w), check)) < WorkLeft(s)
    {
      BusyCountAfter(s.workers, w, Busy(Job(s.counter, s.args[0])));
    }
    forall w: nat | Enabled(s, Finish(w))
      ensures WorkLeft(Next(s, Finish(w), check)) < WorkLeft(s)
    {
      BusyCountAfter(s.workers, w, Free);
    }
    forall w: nat | Enabled(s, Sleep(w))
      ensures WorkLeft(Next(s, Sleep(w), check)) == WorkLeft(s)
    {
      BusyCountAfter(s.workers, w, Asleep);
    }
    forall w: nat | Enabled(s, Wake(w))
      ensures WorkLeft(Next(s, Wake(w), check)) == WorkLeft(s)
    {
      BusyCountAfter(s.workers, w, Free);
    }
  }

  lemma {:induction false} SomebodyWorks(s: State, check: Check)
    requires Valid(s, check) && s.client.Waiting? && s.ready != s.total && s.lost == [] && s.workers != []
    ensures exists w: nat :: Enabled(s, Take(w)) || Enabled(s, Finish(w))
  {
    hide Current;
    assert |Pushed(s)| == Size(s);
    if Current(s.workers, s.counter) != [] {
      CurrentIsSomebody(s.workers, s.counter);
      var w: nat :| w < |s.workers| && s.workers[w].Busy?;
      assert Enabled(s, Finish(w));
    } else {
      assert s.args != [];
      hide Accounted;
      assert if s.workers[0].Free? then Enabled(s, Take(0)) else Enabled(s, Finish(0));
    }
  }

  /** The state after further steps, or None when one of them cannot be made. */
  function After(s: State, steps: seq<Step>, check: Check): Option<State>
    decreases |steps|
  {
    if steps == [] then Some(s)
    else if !Enabled(s, steps[0]) then None
    else After(Next(s, steps[0], check), steps[1..], check)
  }

  predicate OnlyWork(steps: seq<Step>) {
    forall t <- steps :: t.Take? || t.Finish?
  }

  lemma {:induction false} WorkGoesOn(s: State, t: Step, check: Check)
    requires Valid(s, check) && s.client.Waiting? && s.lost == [] && Enabled(s, t) && (t.Take? || t.Finish?)
    ensures var v := Next(s, t, check);
            && Valid(v, check) && v.client.Waiting? && v.lost == [] && v.batch == s.batch && |v.workers| == |s.workers|
            && WorkLeft(v) < WorkLeft(s)
  {
    StepKeepsValid(s, t, check);
    WorkerSteps(s, check);
    hide Valid, WorkLeft;
  }

  lemma {:induction false} WorkLeadsToAnswer(s: State, check: Check) returns (steps: seq<Step>)
    requires Valid(s, check) && s.client.Waiting? && s.lost == [] && s.workers != []
    ensures OnlyWork(steps) && |steps| <= WorkLeft(s) && After(s, steps, check).Some?
    ensures var v := After(s, steps, check).value; Returns(v) && v.batch == s.batch
    decreases WorkLeft(s)
  {
    if s.ready == s.total {
      steps := [];
    } else {
      SomebodyWorks(s, check);
      hide Valid, WorkLeft;
      var w: nat :| Enabled(s, Take(w)) || Enabled(s, Finish(w));
      var t := if Enabled(s, Take(w)) then Take(w) else Finish(w);
      WorkGoesOn(s, t, check);
      var rest := WorkLeadsToAnswer(Next(s, t, check), check);
      steps := [t] + rest;
      assert steps[1..] == rest;
    }
  }

  /** From every reachable state in which an answer is awaited, without a cancel, steps of the workers alone, and no
      more of them than there is work left, make signatures_valid return. */
  lemma {:induction false} AnswerComes(run: seq<State>, steps: seq<Step>, threads: nat, check: Check)
    requires IsRun(run, steps, threads, check) && threads > 0
    requires var s := run[|steps|]; s.client.Waiting? && s.lost == []
    ensures var s := run[|steps|];
            exists more: seq<Step> | OnlyWork(more) && |more| <= WorkLeft(s) && After(s, more, check).Some? ::
              Returns(After(s, more, check).value) && After(s, more, check).value.batch == s.batch
  {
    hide Valid, WorkLeft;
    RunIsValid(run, steps, threads, check);
    var more := WorkLeadsToAnswer(run[|steps|], check);
  }
}
