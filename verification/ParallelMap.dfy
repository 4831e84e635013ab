/** The worker pool that runs rdiff for several files at once: workers share one index and
    one result array, and interleave wherever a worker awaits. */
module ParallelMap {
  /** `Ready` is the top of a worker's while loop. */
  datatype Worker = Ready | InFlight(item: nat) | Stopped | Failed

  /** `calls` are the indices `fn` has been called with, in order of the calls. */
  datatype State<R> = State(
    workers: seq<Worker>, index: nat, results: map<nat, R>, calls: seq<nat>, signalled: bool)

  datatype Job<!T, !R> = Job(items: seq<T>, concurrency: int, fn: (T, nat) -> R)

  function PoolSize(concurrency: int, items: nat): nat {
    if concurrency < 0 then 0 else if concurrency < items then concurrency else items
  }

  function Init<T, R>(job: Job<T, R>): State<R> {
    State(seq(PoolSize(job.concurrency, |job.items|), i => Ready), 0, map[], [], false)
  }

  datatype Event = Turn(w: nat) | Complete(w: nat) | Reject(w: nat) | Abort

  predicate Enabled<R>(s: State<R>, e: Event) {
    match e
    case Turn(w) => w < |s.workers| && s.workers[w] == Ready
    case Complete(w) => w < |s.workers| && s.workers[w].InFlight?
    case Reject(w) => w < |s.workers| && s.workers[w].InFlight?
    case Abort => true
  }

  function Next<T, R>(job: Job<T, R>, s: State<R>, e: Event): State<R>
    requires Enabled(s, e)
  {
    match e
    case Turn(w) =>
      if s.index >= |job.items| then s.(workers := s.workers[w := Stopped])
      else if s.signalled then s.(workers := s.workers[w := Failed])
      else s.(workers := s.workers[w := InFlight(s.index)], index := s.index + 1, calls := s.calls + [s.index])
    case Complete(w) =>
      var i := s.workers[w].item;
      if i < |job.items| then
        s.(workers := s.workers[w := Ready], results := s.results[i := job.fn(job.items[i], i)])
      else s
    case Reject(w) => s.(workers := s.workers[w := Failed])
    case Abort => s.(signalled := true)
  }

  ghost predicate IsRun<T, R>(job: Job<T, R>, states: seq<State<R>>, events: seq<Event>) {
    && |states| == |events| + 1 && states[0] == Init(job)
    && forall k {:trigger events[k]} :: 0 <= k < |events| ==>
         Enabled(states[k], events[k]) && states[k + 1] == Next(job, states[k], events[k])
  }

  /** Promise.all resolves when every worker has returned. */
  ghost predicate ReturnedNormally<R>(s: State<R>) {
    forall w :: 0 <= w < |s.workers| ==> s.workers[w] == Stopped
  }

  ghost predicate Held<R>(s: State<R>, i: nat) {
    exists w :: 0 <= w < |s.workers| && s.workers[w] == InFlight(i)
  }

  ghost predicate SomeFailed<R>(s: State<R>) {
    exists w :: 0 <= w < |s.workers| && s.workers[w] == Failed
  }

  ghost predicate Inv<T, R>(job: Job<T, R>, s: State<R>) {
    && |s.workers| == PoolSize(job.concurrency, |job.items|) && s.index <= |job.items|
    && s.calls == seq(s.index, i => i)
    && (forall w :: 0 <= w < |s.workers| && s.workers[w].InFlight? ==>
          s.workers[w].item < s.index && s.workers[w].item !in s.results)
    && (forall v, w :: 0 <= v < w < |s.workers| && s.workers[v].InFlight? && s.workers[w].InFlight? ==>
          s.workers[v].item != s.workers[w].item)
    && (forall w :: 0 <= w < |s.workers| && s.workers[w] == Stopped ==> s.index == |job.items|)
    && (forall i :: i in s.results ==> i < s.index && s.results[i] == job.fn(job.items[i], i))
    && (forall i: nat :: i < s.index ==> i in s.results || Held(s, i) || SomeFailed(s))
  }

  lemma HeldStays<R>(s: State<R>, s': State<R>, w: nat, i: nat)
    requires w < |s.workers| && |s'.workers| == |s.workers| && s'.workers == s.workers[w := s'.workers[w]]
    ensures Held(s, i) ==> s.workers[w] == InFlight(i) || Held(s', i)
    ensures SomeFailed(s) && s.workers[w] != Failed ==> SomeFailed(s')
    ensures s'.workers[w] == Failed ==> SomeFailed(s')
    ensures s'.workers[w] == InFlight(i) ==> Held(s', i)
  {
    if v :| 0 <= v < |s.workers| && s.workers[v] == InFlight(i) {
      assert v != w ==> s'.workers[v] == InFlight(i);
    }
    if v :| 0 <= v < |s.workers| && s.workers[v] == Failed {
      assert v != w ==> s'.workers[v] == Failed;
    }
  }

  lemma StepKeepsInv<T, R>(job: Job<T, R>, s: State<R>, e: Event)
    requires Inv(job, s) && Enabled(s, e)
    ensures Inv(job, Next(job, s, e))
  {
    var s' := Next(job, s, e);
    if e != Abort {
      forall i: nat | i < s'.index ensures i in s'.results || Held(s', i) || SomeFailed(s') {
        HeldStays(s, s', e.w, i);
      }
    } else {
      forall i: nat | i < s'.index ensures i in s'.results || Held(s', i) || SomeFailed(s') {
        assert i in s.results || Held(s, i) || SomeFailed(s);
        assert s'.workers == s.workers;
      }
    }
  }

  lemma {:induction false} RunKeepsInv<T, R>(job: Job<T, R>, states: seq<State<R>>, events: seq<Event>, k: nat)
    requires IsRun(job, states, events) && k <= |events|
    ensures Inv(job, states[k])
  {
    if k > 0 {
      RunKeepsInv(job, states, events, k - 1);
      assert Enabled(states[k - 1], events[k - 1]);
      StepKeepsInv(job, states[k - 1], events[k - 1]);
    }
  }

  /** Under every interleaving: if the pool returns normally, and it had a worker at all, `fn` was
      called exactly once for each item and every result is in its own slot. A pool of no workers
      over a non-empty list returns normally without calling `fn` at all. */
  lemma EachItemOnce<T, R>(job: Job<T, R>, states: seq<State<R>>, events: seq<Event>, k: nat)
    requires IsRun(job, states, events) && k <= |events| && ReturnedNormally(states[k])
    ensures forall i :: i in states[k].results ==> i < |job.items| && states[k].results[i] == job.fn(job.items[i], i)
    ensures job.concurrency >= 1 || job.items == [] <==> states[k].calls == seq(|job.items|, i => i)
    ensures job.concurrency >= 1 || job.items == [] <==> (forall i: nat :: i < |job.items| ==> i in states[k].results)
  {
    RunKeepsInv(job, states, events, k);
    var s := states[k];
    if job.concurrency >= 1 || job.items == [] {
      assert |s.workers| > 0 ==> s.workers[0] == Stopped;
      assert s.index == |job.items|;
    } else {
      assert |s.workers| == 0;
      NothingHappens(job, states, events, k);
      assert |seq(|job.items|, i => i)| > 0;
      assert 0 !in s.results;
    }
  }

  lemma {:induction false} NothingHappens<T, R>(job: Job<T, R>, states: seq<State<R>>, events: seq<Event>, k: nat)
    requires IsRun(job, states, events) && k <= |events| && PoolSize(job.concurrency, |job.items|) == 0
    ensures states[k].workers == [] && states[k].results == map[] && states[k].calls == []
  {
    if k > 0 {
      NothingHappens(job, states, events, k - 1);
      assert Enabled(states[k - 1], events[k - 1]);
    }
  }

  // ----- Bounded concurrency -----

  /** The calls of `fn` that have neither returned nor failed. */
  ghost function Pending(workers: seq<Worker>): set<nat> {
    set w | 0 <= w < |workers| && workers[w].InFlight? :: workers[w].item
  }

  lemma {:induction false} PendingBound(workers: seq<Worker>)
    ensures |Pending(workers)| <= |workers|
  {
    if workers == [] {
      assert Pending(workers) == {};
    } else {
      var n := |workers| - 1;
      PendingBound(workers[..n]);
      if workers[n].InFlight? {
        assert Pending(workers) == Pending(workers[..n]) + {workers[n].item};
      } else {
        assert Pending(workers) == Pending(workers[..n]);
      }
    }
  }

  /** At no point are more than `concurrency` calls of `fn` in flight. */
  lemma AtMostConcurrencyInFlight<T, R>(job: Job<T, R>, states: seq<State<R>>, events: seq<Event>, k: nat)
    requires IsRun(job, states, events) && k <= |events|
    ensures |Pending(states[k].workers)| <= (if job.concurrency > 0 then job.concurrency else 0)
    ensures forall i :: i in Pending(states[k].workers) ==> i in states[k].calls && i !in states[k].results
  {
    RunKeepsInv(job, states, events, k);
    PendingBound(states[k].workers);
    var s := states[k];
    forall i | i in Pending(s.workers) ensures i in s.calls && i !in s.results {
      assert i < s.index && s.calls[i] == i;
    }
  }
}
