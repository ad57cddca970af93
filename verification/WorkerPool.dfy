/** Threads that take jobs from a list under a mutex, and sleep on a condition variable when there are none. */
module WorkerPool {
  datatype Worker<T> = Free | Asleep | Busy(job: T)

  /** notify_all: whoever sleeps looks at the list again. */
  function Woken<T>(workers: seq<Worker<T>>): (r: seq<Worker<T>>)
    ensures |r| == |workers|
    ensures forall w: nat | w < |workers| :: r[w] == if workers[w].Asleep? then Free else workers[w]
  {
    if workers == [] then []
    else
      var n := |workers| - 1;
      Woken(workers[..n]) + [if workers[n].Asleep? then Free else workers[n]]
  }

  function BusyCount<T>(workers: seq<Worker<T>>): nat {
    if workers == [] then 0
    else BusyCount(workers[..|workers| - 1]) + if workers[|workers| - 1].Busy? then 1 else 0
  }

  /** One worker changes what it does. */
  lemma {:induction false} BusyCountAfter<T>(workers: seq<Worker<T>>, w: nat, v: Worker<T>)
    requires w < |workers|
    ensures BusyCount(workers[w := v]) + (if workers[w].Busy? then 1 else 0) == BusyCount(workers) + if v.Busy? then 1
            else 0
  {
    var n := |workers| - 1;
    var after := workers[w := v];
    if w == n {
      assert after[..n] == workers[..n];
    } else {
      BusyCountAfter(workers[..n], w, v);
      assert after[..n] == workers[..n][w := v];
    }
  }
}
