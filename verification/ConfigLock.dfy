/** The per-config lock that serialises rebase, deltaify and prune. Tasks run in one JavaScript
    thread, so a step is everything a task does between two awaits. */
module ConfigLock {
  /** Where a call of withConfigLock stands. A promise is named by the number of its creation. */
  datatype Pc =
    | Start
    | Waiting(promise: nat)
    | InBody(promise: nat)
    | Done
    | Aborted

  /** `signalled`: the caller's abort signal has fired. */
  datatype Task = Task(config: nat, pc: Pc, signalled: bool)

  datatype State = State(
    tasks: seq<Task>,
    configLocks: map<nat, nat>,   // config -> promise of the task inside
    resolved: set<nat>,
    nextPromise: nat)

  predicate Unfinished(t: Task) { t.pc != Done && t.pc != Aborted }

  /** A task that the event loop may resume: not started yet, or its promise has been resolved. */
  predicate Runnable(t: Task, resolved: set<nat>) {
    t.pc == Start || (t.pc.Waiting? && t.pc.promise in resolved)
  }

  ghost predicate Init(s: State) {
    && s.configLocks == map[] && s.resolved == {}
    && forall i :: 0 <= i < |s.tasks| ==> s.tasks[i].pc == Start
  }

  // ----- Steps -----

  datatype Event = Resume(i: nat) | Reject(i: nat) | Signal(i: nat) | Finish(i: nat)

  /** The top of the while loop, up to the next await or into the body. */
  function ResumeTask(s: State, i: nat): State
    requires i < |s.tasks|
  {
    var t := s.tasks[i];
    if t.config in s.configLocks then
      var pc := if t.signalled then Aborted else Waiting(s.configLocks[t.config]);
      s.(tasks := s.tasks[i := t.(pc := pc)])
    else if t.signalled then
      s.(tasks := s.tasks[i := t.(pc := Aborted)])
    else
      s.(tasks := s.tasks[i := t.(pc := InBody(s.nextPromise))],
         configLocks := s.configLocks[t.config := s.nextPromise],
         nextPromise := s.nextPromise + 1)
  }

  /** The finally block: release the lock and resolve the promise. */
  function FinishTask(s: State, i: nat): State
    requires i < |s.tasks| && s.tasks[i].pc.InBody?
  {
    var t := s.tasks[i];
    s.(tasks := s.tasks[i := t.(pc := Done)],
       configLocks := s.configLocks - {t.config},
       resolved := s.resolved + {t.pc.promise})
  }

  predicate Enabled(s: State, e: Event) {
    && e.i < |s.tasks|
    && match e
       case Resume(i) => Runnable(s.tasks[i], s.resolved)
       case Reject(i) => s.tasks[i].pc.Waiting? && s.tasks[i].signalled
       case Signal(i) => !s.tasks[i].signalled
       case Finish(i) => s.tasks[i].pc.InBody?
  }

  function Next(s: State, e: Event): State
    requires Enabled(s, e)
  {
    match e
    case Resume(i) => ResumeTask(s, i)
    case Reject(i) => s.(tasks := s.tasks[i := s.tasks[i].(pc := Aborted)])
    case Signal(i) => s.(tasks := s.tasks[i := s.tasks[i].(signalled := true)])
    case Finish(i) => FinishTask(s, i)
  }

  ghost predicate IsRun(states: seq<State>, events: seq<Event>) {
    && |states| == |events| + 1 && Init(states[0])
    && forall k {:trigger events[k]} :: 0 <= k < |events| ==>
         Enabled(states[k], events[k]) && states[k + 1] == Next(states[k], events[k])
  }

  // ----- Safety -----

  ghost predicate Inv(s: State) {
    && (forall c :: c in s.configLocks ==> s.configLocks[c] < s.nextPromise && s.configLocks[c] !in s.resolved)
    && (forall p :: p in s.resolved ==> p < s.nextPromise)
    && (forall c :: c in s.configLocks ==> exists i :: HoldsLock(s, i, c))
    && (forall i :: 0 <= i < |s.tasks| ==> TaskInv(s, s.tasks[i]))
    && (forall i, j :: 0 <= i < j < |s.tasks| && s.tasks[i].pc.InBody? && s.tasks[j].pc.InBody? ==>
          s.tasks[i].pc.promise != s.tasks[j].pc.promise)
  }

  ghost predicate HoldsLock(s: State, i: int, c: nat) {
    0 <= i < |s.tasks| && c in s.configLocks && s.tasks[i].config == c && s.tasks[i].pc == InBody(s.configLocks[c])
  }

  ghost predicate TaskInv(s: State, t: Task) {
    match t.pc
    case InBody(p) => t.config in s.configLocks && s.configLocks[t.config] == p
    case Waiting(p) => p in s.resolved || (t.config in s.configLocks && s.configLocks[t.config] == p)
    case _ => true
  }

  lemma LocksStayHeld(s: State, e: Event)
    requires Inv(s) && Enabled(s, e)
    ensures var s' := Next(s, e);
      && (forall c :: c in s'.configLocks ==> s'.configLocks[c] < s'.nextPromise && s'.configLocks[c] !in s'.resolved)
      && (forall c :: c in s'.configLocks ==> exists i :: HoldsLock(s', i, c))
  {
    var s' := Next(s, e);
    assert TaskInv(s, s.tasks[e.i]);
    forall c | c in s'.configLocks
      ensures s'.configLocks[c] < s'.nextPromise && s'.configLocks[c] !in s'.resolved && exists i :: HoldsLock(s', i, c)
    {
      if c in s.configLocks {
        var i :| HoldsLock(s, i, c);
        assert HoldsLock(s', i, c);
      } else {
        assert HoldsLock(s', e.i, c);
      }
    }
  }

  lemma TasksStayOk(s: State, e: Event)
    requires Inv(s) && Enabled(s, e)
    ensures forall i :: 0 <= i < |Next(s, e).tasks| ==> TaskInv(Next(s, e), Next(s, e).tasks[i])
  {
    var s' := Next(s, e);
    assert TaskInv(s, s.tasks[e.i]);
    forall i | 0 <= i < |s'.tasks| ensures TaskInv(s', s'.tasks[i]) {
      assert TaskInv(s, s.tasks[i]);
    }
  }

  lemma BodiesStayApart(s: State, e: Event)
    requires Inv(s) && Enabled(s, e)
    ensures var s' := Next(s, e);
      forall i, j :: 0 <= i < j < |s'.tasks| && s'.tasks[i].pc.InBody? && s'.tasks[j].pc.InBody? ==>
        s'.tasks[i].pc.promise != s'.tasks[j].pc.promise
  {
    forall i | 0 <= i < |s.tasks| && s.tasks[i].pc.InBody? ensures s.tasks[i].pc.promise < s.nextPromise {
      assert TaskInv(s, s.tasks[i]);
    }
  }

  lemma StepKeepsInv(s: State, e: Event)
    requires Inv(s) && Enabled(s, e)
    ensures Inv(Next(s, e))
  {
    LocksStayHeld(s, e);
    TasksStayOk(s, e);
    BodiesStayApart(s, e);
    assert TaskInv(s, s.tasks[e.i]);
  }

  lemma {:induction false} RunKeepsInv(states: seq<State>, events: seq<Event>, k: nat)
    requires IsRun(states, events) && k <= |events|
    ensures Inv(states[k])
  {
    if k > 0 {
      RunKeepsInv(states, events, k - 1);
      assert Enabled(states[k - 1], events[k - 1]);
      StepKeepsInv(states[k - 1], events[k - 1]);
    }
  }

  ghost predicate OneBodyPerConfig(s: State) {
    forall i, j :: 0 <= i < j < |s.tasks| && s.tasks[i].pc.InBody? && s.tasks[j].pc.InBody? ==>
      s.tasks[i].config != s.tasks[j].config
  }

  ghost predicate WaitersHaveAHolder(s: State) {
    forall i :: 0 <= i < |s.tasks| && s.tasks[i].pc.Waiting? && s.tasks[i].pc.promise !in s.resolved ==>
      exists j :: HoldsLock(s, j, s.tasks[i].config)
  }

  /** At no point of any run are two bodies of one config running, and a task only waits on an
      unresolved promise while the lock is taken, by a task that is running its body. */
  lemma MutualExclusion(states: seq<State>, events: seq<Event>, k: nat)
    requires IsRun(states, events) && k <= |events|
    ensures OneBodyPerConfig(states[k]) && WaitersHaveAHolder(states[k])
  {
    RunKeepsInv(states, events, k);
    var s := states[k];
    forall i, j | 0 <= i < j < |s.tasks| && s.tasks[i].pc.InBody? && s.tasks[j].pc.InBody?
      ensures s.tasks[i].config != s.tasks[j].config
    {
      assert TaskInv(s, s.tasks[i]) && TaskInv(s, s.tasks[j]);
    }
    forall i | 0 <= i < |s.tasks| && s.tasks[i].pc.Waiting? && s.tasks[i].pc.promise !in s.resolved
      ensures exists j :: HoldsLock(s, j, s.tasks[i].config)
    {
      assert TaskInv(s, s.tasks[i]);
    }
  }

  /** A task whose signal fired before it got in never gets in. */
  lemma {:induction false} SignalledNeverEnters(states: seq<State>, events: seq<Event>, i: nat, k: nat, n: nat)
    requires IsRun(states, events) && k <= n <= |events| && i < |states[k].tasks|
    requires states[k].tasks[i].signalled && !states[k].tasks[i].pc.InBody? && states[k].tasks[i].pc != Done
    ensures i < |states[n].tasks|
    ensures states[n].tasks[i].signalled && !states[n].tasks[i].pc.InBody? && states[n].tasks[i].pc != Done
  {
    if n > k {
      SignalledNeverEnters(states, events, i, k, n - 1);
      assert Enabled(states[n - 1], events[n - 1]);
    }
  }

  // ----- Progress -----

  function Count(p: Task -> bool, tasks: seq<Task>): nat {
    if tasks == [] then 0 else (if p(tasks[0]) then 1 else 0) + Count(p, tasks[1..])
  }

  lemma {:induction false} CountUpdate(p: Task -> bool, tasks: seq<Task>, i: nat, t: Task)
    requires i < |tasks|
    ensures Count(p, tasks[i := t]) + (if p(tasks[i]) then 1 else 0) == Count(p, tasks) + (if p(t) then 1 else 0)
  {
    if i > 0 {
      assert tasks[i := t][1..] == tasks[1..][i - 1 := t];
      CountUpdate(p, tasks[1..], i - 1, t);
    } else {
      assert tasks[i := t][1..] == tasks[1..];
    }
  }

  lemma {:induction false} CountBound(p: Task -> bool, tasks: seq<Task>)
    ensures Count(p, tasks) <= |tasks|
  {
    if tasks != [] { CountBound(p, tasks[1..]); }
  }

  const UNFINISHED := (t: Task) => Unfinished(t)
  const UNSIGNALLED := (t: Task) => !t.signalled
  function RunnableIn(resolved: set<nat>): Task -> bool { t => Runnable(t, resolved) }

  function Rank(s: State): nat {
    Count(UNFINISHED, s.tasks) * (|s.tasks| + 1) + Count(RunnableIn(s.resolved), s.tasks) + Count(UNSIGNALLED, s.tasks)
  }

  /** Fewer unfinished tasks outweigh any number of newly runnable ones. */
  lemma RankOrder(n: nat, u: nat, u': nat, r: nat, r': nat)
    requires r' <= n && (u' < u || (u' == u && r' < r))
    ensures u' * (n + 1) + r' < u * (n + 1) + r
  {
    if u' < u {
      var m, d := n + 1, u - u' - 1;
      assert u * m == u' * m + d * m + m by {
        assert u == u' + d + 1;
      }
      assert d * m >= 0;
    }
  }

  lemma StepLowersRank(s: State, e: Event)
    requires Inv(s) && Enabled(s, e)
    ensures Rank(Next(s, e)) < Rank(s)
  {
    var s' := Next(s, e);
    var t, t' := s.tasks[e.i], s'.tasks[e.i];
    CountUpdate(UNFINISHED, s.tasks, e.i, t');
    CountUpdate(UNSIGNALLED, s.tasks, e.i, t');
    CountBound(RunnableIn(s'.resolved), s'.tasks);
    var n, u, u' := |s.tasks|, Count(UNFINISHED, s.tasks), Count(UNFINISHED, s'.tasks);
    var r, r' := Count(RunnableIn(s.resolved), s.tasks), Count(RunnableIn(s'.resolved), s'.tasks);
    if !e.Finish? {
      CountUpdate(RunnableIn(s.resolved), s.tasks, e.i, t');
    }
    if !e.Signal? {
      ResumeChanges(s, e);
      RankOrder(n, u, u', r, r');
    }
  }

  lemma ResumeChanges(s: State, e: Event)
    requires Inv(s) && Enabled(s, e) && !e.Signal?
    ensures Next(s, e).tasks == s.tasks[e.i := Next(s, e).tasks[e.i]]
    ensures Next(s, e).tasks[e.i].signalled == s.tasks[e.i].signalled
    ensures Unfinished(s.tasks[e.i])
    ensures Unfinished(Next(s, e).tasks[e.i]) ==>
      Runnable(s.tasks[e.i], s.resolved) && !Runnable(Next(s, e).tasks[e.i], s.resolved) && e.Resume?
  {}

  lemma RankBound(n: nat, u: nat, r: nat, v: nat)
    requires u <= n && r <= n && v <= n
    ensures u * (n + 1) + r + v <= n * (n + 3)
  {
    var d := n - u;
    assert n * (n + 1) == u * (n + 1) + d * (n + 1);
    assert d * (n + 1) >= 0;
    assert n * (n + 3) == n * (n + 1) + 2 * n;
  }

  /** No run goes on forever: with `n` tasks it has at most `n * (n + 3)` steps. */
  lemma RunsAreBounded(states: seq<State>, events: seq<Event>)
    requires IsRun(states, events)
    ensures |events| <= |states[0].tasks| * (|states[0].tasks| + 3)
  {
    RankFalls(states, events, |events|);
    var s := states[0];
    CountBound(UNFINISHED, s.tasks);
    CountBound(UNSIGNALLED, s.tasks);
    CountBound(RunnableIn(s.resolved), s.tasks);
    var n := |s.tasks|;
    RankBound(n, Count(UNFINISHED, s.tasks), Count(RunnableIn(s.resolved), s.tasks), Count(UNSIGNALLED, s.tasks));
  }

  lemma {:induction false} RankFalls(states: seq<State>, events: seq<Event>, k: nat)
    requires IsRun(states, events) && k <= |events|
    ensures Rank(states[k]) + k <= Rank(states[0])
  {
    if k > 0 {
      RankFalls(states, events, k - 1);
      RunKeepsInv(states, events, k - 1);
      assert Enabled(states[k - 1], events[k - 1]);
      StepLowersRank(states[k - 1], events[k - 1]);
    }
  }

  /** And a run can only stop when every task has run its body or been aborted: as long as one has
      not, a body is running or a task can be resumed. So no waiter is ever forgotten. */
  lemma NoDeadlock(states: seq<State>, events: seq<Event>, k: nat, i: nat) returns (e: Event)
    requires IsRun(states, events) && k <= |events|
    requires i < |states[k].tasks| && Unfinished(states[k].tasks[i])
    ensures Enabled(states[k], e) && !e.Signal?
    ensures e.Finish? ==> states[k].tasks[e.i].config == states[k].tasks[i].config
  {
    RunKeepsInv(states, events, k);
    var s := states[k];
    assert TaskInv(s, s.tasks[i]);
    match s.tasks[i].pc
    case Start => e := Resume(i);
    case InBody(_) => e := Finish(i);
    case Waiting(p) =>
      if p in s.resolved { e := Resume(i); }
      else {
        var j :| HoldsLock(s, j, s.tasks[i].config);
        e := Finish(j);
      }
  }
}
