/** The worker pool (src/WorkerPool.cc) as a step system. Every access to the shared state happens inside a critical
    section of the one mutex, so a step is one critical section, or one action of a thread outside of all of them.
    Waiting on a condition variable ends the section: the thread sleeps until it is woken and enters a new one. */
module WorkerPools {

  /** A work order; either function may be missing. Orders are named by their position in `submitted`. */
  datatype Order = Order(hasWork: bool, hasCallback: bool)

  /** Where a worker thread is. Ready: about to lock the mutex and look at the queue. */
  datatype Worker =
    | Ready
    | Asleep
    | Working(id: nat)
    | Calling(id: nat)
    | Finishing(id: nat)
    | Exited

  /** A call of WaitForResults. `seen` is the number of orders added before it. */
  datatype Call =
    | Sleeping(seen: nat, timed: bool)
    | Notified(seen: nat, timed: bool)
    | Returned(seen: nat, timed: bool, result: bool)

  datatype Event = RanWork(id: nat) | RanCallback(id: nat)

  datatype Pool = Pool(
    queue: seq<nat>,
    active: int,
    done: bool,
    workers: seq<Worker>,
    calls: seq<Call>,
    workersNotified: bool,
    // What has happened so far.
    submitted: seq<Order>,
    started: seq<nat>,
    finished: set<nat>,
    log: seq<Event>)

  datatype Step =
    | AddWork(order: Order, woken: nat)
    | Examine(w: nat)
    | RunWork(w: nat)
    | RunCallback(w: nat)
    | Finish(w: nat)
    | SpuriousWake(w: nat)
    | StartWait(timed: bool)
    | Wake(c: nat)
    | TimeOut(c: nat)
    | Shutdown
    | NotifyWorkers
    | NotifyWaiters
    | SpuriousReturn(c: nat)

  function Start(threads: nat): Pool {
    Pool([], 0, false, seq(threads, _ => Ready), [], false, [], [], {}, [])
  }

  predicate HaveResults(s: Pool) {
    s.done || (s.queue == [] && s.active == 0)
  }

  predicate SomeAsleep(workers: seq<Worker>) {
    exists w :: 0 <= w < |workers| && workers[w].Asleep?
  }

  /** Whether a step can be taken. A notify_one wakes one sleeper, whichever it is, if there is any. */
  predicate Enabled(s: Pool, step: Step) {
    match step
    case AddWork(_, woken) => SomeAsleep(s.workers) ==> woken < |s.workers| && s.workers[woken].Asleep?
    case Examine(w) => w < |s.workers| && s.workers[w].Ready?
    case RunWork(w) => w < |s.workers| && s.workers[w].Working?
    case RunCallback(w) => w < |s.workers| && s.workers[w].Calling?
    case Finish(w) => w < |s.workers| && s.workers[w].Finishing?
    case SpuriousWake(w) => w < |s.workers| && s.workers[w].Asleep?
    case StartWait(_) => true
    case Wake(c) => c < |s.calls| && (s.calls[c].Notified? || (s.calls[c].Sleeping? && s.calls[c].timed))
    case TimeOut(c) => c < |s.calls| && !s.calls[c].Returned? && s.calls[c].timed
    case Shutdown => !s.done
    case NotifyWorkers => s.done
    case NotifyWaiters => s.workersNotified && forall w :: 0 <= w < |s.workers| ==> s.workers[w].Exited?
    case SpuriousReturn(c) => c < |s.calls| && s.calls[c].Sleeping? && !s.calls[c].timed
  }

  function WakeWorkers(workers: seq<Worker>): (r: seq<Worker>)
    ensures |r| == |workers|
    ensures forall w :: 0 <= w < |r| ==> r[w] == if workers[w].Asleep? then Ready else workers[w]
  {
    seq(|workers|, w requires 0 <= w < |workers| => if workers[w].Asleep? then Ready else workers[w])
  }

  function WakeCalls(calls: seq<Call>): (r: seq<Call>)
    ensures |r| == |calls|
    ensures forall c :: 0 <= c < |r| ==>
      r[c] == if calls[c].Sleeping? then Notified(calls[c].seen, calls[c].timed) else calls[c]
  {
    seq(|calls|, c requires 0 <= c < |calls| =>
      if calls[c].Sleeping? then Notified(calls[c].seen, calls[c].timed) else calls[c])
  }

  function Next(s: Pool, step: Step): Pool
    requires Enabled(s, step)
  {
    match step
    case AddWork(order, woken) =>
      s.(queue := s.queue + [|s.submitted|],
         submitted := s.submitted + [order],
         workers := if SomeAsleep(s.workers) then s.workers[woken := Ready] else s.workers)
    case Examine(w) =>
      if s.done then s.(workers := s.workers[w := Exited])
      else if s.queue == [] then s.(workers := s.workers[w := Asleep])
      else s.(active := s.active + 1,
              queue := s.queue[1..],
              workers := s.workers[w := Working(s.queue[0])],
              started := s.started + [s.queue[0]])
    case RunWork(w) =>
      var id := s.workers[w].id;
      s.(workers := s.workers[w := Calling(id)],
         log := s.log + (if id < |s.submitted| && s.submitted[id].hasWork then [RanWork(id)] else []))
    case RunCallback(w) =>
      var id := s.workers[w].id;
      s.(workers := s.workers[w := Finishing(id)],
         log := s.log + (if id < |s.submitted| && s.submitted[id].hasCallback then [RanCallback(id)] else []))
    case Finish(w) =>
      var active := s.active - 1;
      s.(workers := s.workers[w := Ready],
         active := active,
         finished := s.finished + {s.workers[w].id},
         calls := if s.queue == [] && active <= 0 then WakeCalls(s.calls) else s.calls)
    case SpuriousWake(w) => s.(workers := s.workers[w := Ready])
    case StartWait(timed) =>
      var seen := |s.submitted|;
      s.(calls := s.calls + [if HaveResults(s) then Returned(seen, timed, !s.done) else Sleeping(seen, timed)])
    case Wake(c) =>
      var call := s.calls[c];
      s.(calls := s.calls[c := if !call.timed || HaveResults(s) then Returned(call.seen, call.timed, !s.done)
                               else Sleeping(call.seen, true)])
    case TimeOut(c) => s.(calls := s.calls[c := Returned(s.calls[c].seen, true, HaveResults(s) && !s.done)])
    case Shutdown => s.(done := true)
    case NotifyWorkers => s.(workers := WakeWorkers(s.workers), workersNotified := true)
    case NotifyWaiters => s.(calls := WakeCalls(s.calls))
    case SpuriousReturn(c) => s.(calls := s.calls[c := Returned(s.calls[c].seen, false, !s.done)])
  }

  predicate IsRun(s: Pool, steps: seq<Step>)
    decreases |steps|
  {
    steps == [] || (Enabled(s, steps[0]) && IsRun(Next(s, steps[0]), steps[1..]))
  }

  function After(s: Pool, steps: seq<Step>): Pool
    requires IsRun(s, steps)
    decreases |steps|
  {
    if steps == [] then s else After(Next(s, steps[0]), steps[1..])
  }

  // -------- the invariant --------

  function Count(p: Worker -> bool, workers: seq<Worker>): nat {
    if workers == [] then 0
    else Count(p, workers[..|workers|-1]) + (if p(workers[|workers|-1]) then 1 else 0)
  }

  predicate Busy(w: Worker) {
    w.Working? || w.Calling? || w.Finishing?
  }

  predicate IsReady(w: Worker) {
    w.Ready?
  }

  /** Orders are taken in the order in which they were added. */
  ghost predicate Fifo(s: Pool) {
    && |s.started| + |s.queue| == |s.submitted|
    && (forall k :: 0 <= k < |s.started| ==> s.started[k] == k)
    && (forall k :: 0 <= k < |s.queue| ==> s.queue[k] == |s.started| + k)
  }

  ghost predicate Holds(s: Pool, w: nat, id: nat) {
    w < |s.workers| && Busy(s.workers[w]) && s.workers[w].id == id
  }

  /** A started order is held by exactly one worker until it is finished. */
  ghost predicate Partition(s: Pool) {
    && (forall id :: id in s.finished ==> id < |s.started|)
    && (forall w: nat, id: nat :: Holds(s, w, id) ==> id < |s.started| && id !in s.finished)
    && (forall v: nat, w: nat, id: nat :: Holds(s, v, id) && Holds(s, w, id) ==> v == w)
    && (forall id: nat :: id < |s.started| && id !in s.finished ==> exists w: nat :: Holds(s, w, id))
  }

  function EventsOf(log: seq<Event>, id: nat): seq<Event> {
    if log == [] then []
    else EventsOf(log[..|log|-1], id) + (if log[|log|-1].id == id then [log[|log|-1]] else [])
  }

  /** What an order has had run, once it is past its work and past its callback: each at most once, work first. */
  function Plan(id: nat, order: Order, worked: bool, called: bool): seq<Event> {
    (if worked && order.hasWork then [RanWork(id)] else [])
      + (if called && order.hasCallback then [RanCallback(id)] else [])
  }

  ghost predicate Logged(s: Pool)
    requires Fifo(s) && Partition(s)
  {
    && (forall id: nat :: |s.started| <= id ==> EventsOf(s.log, id) == [])
    && (forall w: nat, id: nat :: Holds(s, w, id) ==>
          EventsOf(s.log, id) == Plan(id, s.submitted[id], !s.workers[w].Working?, s.workers[w].Finishing?))
    && (forall id :: id in s.finished ==> EventsOf(s.log, id) == Plan(id, s.submitted[id], true, true))
  }

  ghost predicate FinishedBelow(s: Pool, seen: nat) {
    forall id: nat :: id < seen ==> id in s.finished
  }

  /** If a call returns true then all it waited for is done, and if it returns false although it has no timeout then the
      pool is being shut down. An untimed call that is woken returns at once, so it must be woken for good. */
  ghost predicate CallKept(s: Pool, call: Call) {
    && call.seen <= |s.submitted|
    && match call
       case Sleeping(_, _) => true
       case Notified(seen, timed) => timed || s.done || FinishedBelow(s, seen)
       case Returned(seen, timed, result) => if result then FinishedBelow(s, seen) else timed || s.done
  }

  /** A call sleeps only while an order is queued or active, whatever wakes it. */
  ghost predicate SleepersKept(s: Pool) {
    forall c :: 0 <= c < |s.calls| && s.calls[c].Sleeping? ==> s.queue != [] || 0 < s.active
  }

  /** No wakeup is lost: if a worker sleeps, enough others are on their way to the queue. */
  ghost predicate WorkersKept(s: Pool) {
    && (!s.done && SomeAsleep(s.workers) ==> |s.queue| <= Count(IsReady, s.workers))
    && (s.workersNotified ==> s.done && !SomeAsleep(s.workers))
    && (forall w :: 0 <= w < |s.workers| && s.workers[w].Exited? ==> s.done)
  }

  /** What every step keeps. */
  ghost predicate Core(s: Pool) {
    && Fifo(s)
    && Partition(s)
    && s.active == Count(Busy, s.workers)
    && Logged(s)
    && WorkersKept(s)
    && SleepersKept(s)
  }

  // -------- counting workers --------

  lemma {:induction false} CountUpdate(p: Worker -> bool, workers: seq<Worker>, w: nat, x: Worker)
    requires w < |workers|
    ensures Count(p, workers[w := x])
         == Count(p, workers) - (if p(workers[w]) then 1 else 0) + (if p(x) then 1 else 0)
  {
    var n := |workers| - 1;
    if w < n {
      CountUpdate(p, workers[..n], w, x);
      assert workers[w := x][..n] == workers[..n][w := x];
    } else {
      assert workers[w := x][..n] == workers[..n];
    }
  }

  lemma {:induction false} CountSame(p: Worker -> bool, a: seq<Worker>, b: seq<Worker>)
    requires |a| == |b| && forall w :: 0 <= w < |a| ==> p(a[w]) == p(b[w])
    ensures Count(p, a) == Count(p, b)
  {
    if a != [] {
      CountSame(p, a[..|a|-1], b[..|b|-1]);
    }
  }

  lemma {:induction false} CountZero(p: Worker -> bool, workers: seq<Worker>)
    ensures Count(p, workers) == 0 <==> forall w :: 0 <= w < |workers| ==> !p(workers[w])
  {
    if workers != [] {
      CountZero(p, workers[..|workers|-1]);
    }
  }

  // -------- every step keeps the invariant --------

  lemma NextFifo(s: Pool, step: Step)
    requires Enabled(s, step) && Fifo(s)
    ensures Fifo(Next(s, step))
  {
  }

  lemma NextPartition(s: Pool, step: Step)
    requires Enabled(s, step) && Fifo(s) && Partition(s)
    ensures Partition(Next(s, step))
  {
    if step.Examine? && !s.done && s.queue != [] {
      TakePartition(s, step.w);
    } else if step.Finish? {
      FinishPartition(s, step.w);
    } else {
      hide Fifo, Partition;
      SameHolders(s, Next(s, step));
    }
  }

  lemma TakePartition(s: Pool, w: nat)
    requires Enabled(s, Examine(w)) && Fifo(s) && Partition(s) && !s.done && s.queue != []
    ensures Partition(Next(s, Examine(w)))
  {
    var t := Next(s, Examine(w));
    assert Holds(t, w, |s.started|);
    assert forall v: nat, id: nat :: Holds(t, v, id) <==> Holds(s, v, id) || (v == w && id == |s.started|);
  }

  lemma FinishPartition(s: Pool, w: nat)
    requires Enabled(s, Finish(w)) && Partition(s)
    ensures Partition(Next(s, Finish(w)))
  {
    var t := Next(s, Finish(w));
    assert Holds(s, w, s.workers[w].id);
    assert forall v: nat, id: nat :: Holds(t, v, id) <==> Holds(s, v, id) && v != w;
  }

  lemma SameHolders(s: Pool, t: Pool)
    requires Partition(s)
    requires |t.workers| == |s.workers| && t.started == s.started && t.finished == s.finished
    requires forall w: nat, id: nat :: 0 <= w < |s.workers| ==> (Holds(s, w, id) <==> Holds(t, w, id))
    ensures Partition(t)
  {
    forall id: nat | id < |t.started| && id !in t.finished ensures exists w: nat :: Holds(t, w, id) {
      var w :| Holds(s, w, id);
      assert Holds(t, w, id);
    }
  }

  lemma NextActive(s: Pool, step: Step)
    requires Enabled(s, step) && s.active == Count(Busy, s.workers)
    ensures Next(s, step).active == Count(Busy, Next(s, step).workers)
  {
    var t := Next(s, step);
    match step
    case AddWork(_, woken) => if SomeAsleep(s.workers) { CountUpdate(Busy, s.workers, woken, Ready); }
    case Examine(w) => CountUpdate(Busy, s.workers, w, t.workers[w]);
    case RunWork(w) => CountUpdate(Busy, s.workers, w, t.workers[w]);
    case RunCallback(w) => CountUpdate(Busy, s.workers, w, t.workers[w]);
    case Finish(w) => CountUpdate(Busy, s.workers, w, t.workers[w]);
    case SpuriousWake(w) => CountUpdate(Busy, s.workers, w, t.workers[w]);
    case NotifyWorkers => CountSame(Busy, s.workers, t.workers);
    case _ =>
  }

  lemma EventsOfAppend(log: seq<Event>, e: Event, id: nat)
    ensures EventsOf(log + [e], id) == EventsOf(log, id) + (if e.id == id then [e] else [])
  {
    assert (log + [e])[..|log|] == log;
  }

  lemma EventsOfAdded(log: seq<Event>, added: seq<Event>, mine: nat, id: nat)
    requires added == [] || (|added| == 1 && added[0].id == mine)
    ensures EventsOf(log + added, id) == EventsOf(log, id) + (if id == mine then added else [])
  {
    if added == [] {
      assert log + added == log;
    } else {
      EventsOfAppend(log, added[0], id);
      assert added == [added[0]];
    }
  }

  // Worker w runs a part of the order it holds, and becomes x.
  lemma RunLogged(s: Pool, w: nat, x: Worker, added: seq<Event>)
    requires Fifo(s) && Partition(s) && Logged(s)
    requires w < |s.workers| && Busy(s.workers[w]) && Busy(x) && x.id == s.workers[w].id < |s.started|
    requires added == [] || (|added| == 1 && added[0].id == x.id)
    requires Plan(x.id, s.submitted[x.id], !x.Working?, x.Finishing?)
          == Plan(x.id, s.submitted[x.id], !s.workers[w].Working?, s.workers[w].Finishing?) + added
    requires var t := s.(workers := s.workers[w := x], log := s.log + added); Fifo(t) && Partition(t)
    ensures Logged(s.(workers := s.workers[w := x], log := s.log + added))
  {
    hide EventsOf, Plan;
    var t, mine := s.(workers := s.workers[w := x], log := s.log + added), x.id;
    assert Holds(s, w, mine);
    forall id: nat ensures EventsOf(t.log, id) == EventsOf(s.log, id) + (if id == mine then added else []) {
      EventsOfAdded(s.log, added, mine, id);
    }
    forall v: nat, id: nat | Holds(t, v, id)
      ensures EventsOf(t.log, id) == Plan(id, t.submitted[id], !t.workers[v].Working?, t.workers[v].Finishing?)
    {
      assert Holds(s, v, id);
      assert id == mine <==> v == w;
    }
  }

  lemma FinishLogged(s: Pool, w: nat)
    requires Enabled(s, Finish(w)) && Fifo(s) && Partition(s) && Logged(s)
    requires Fifo(Next(s, Finish(w))) && Partition(Next(s, Finish(w)))
    ensures Logged(Next(s, Finish(w)))
  {
    hide EventsOf, Plan, Fifo;
    var t := Next(s, Finish(w));
    assert Holds(s, w, s.workers[w].id);
    assert forall v: nat, id: nat :: Holds(t, v, id) ==> Holds(s, v, id) && t.workers[v] == s.workers[v];
  }

  lemma TakeLogged(s: Pool, w: nat)
    requires Enabled(s, Examine(w)) && Fifo(s) && Partition(s) && Logged(s) && !s.done && s.queue != []
    requires Fifo(Next(s, Examine(w))) && Partition(Next(s, Examine(w)))
    ensures Logged(Next(s, Examine(w)))
  {
    hide EventsOf;
    var t := Next(s, Examine(w));
    assert EventsOf(s.log, |s.started|) == [];
    assert forall v: nat, id: nat :: Holds(t, v, id) ==>
      (v == w && id == |s.started|) || (Holds(s, v, id) && t.workers[v] == s.workers[v]);
  }

  lemma SameLogged(s: Pool, t: Pool)
    requires Fifo(s) && Partition(s) && Logged(s) && Fifo(t) && Partition(t)
    requires t.log == s.log && t.started == s.started && t.finished == s.finished && s.submitted <= t.submitted
    requires |t.workers| == |s.workers|
    requires forall w :: 0 <= w < |s.workers| && Busy(t.workers[w]) ==> t.workers[w] == s.workers[w]
    ensures Logged(t)
  {
    hide EventsOf, Plan;
    assert forall v: nat, id: nat :: Holds(t, v, id) ==> Holds(s, v, id) && t.workers[v] == s.workers[v];
  }

  lemma HolderStarted(s: Pool, w: nat)
    requires Fifo(s) && Partition(s) && w < |s.workers| && Busy(s.workers[w])
    ensures s.workers[w].id < |s.started| <= |s.submitted|
  {
    assert Holds(s, w, s.workers[w].id);
  }

  lemma NextLogged(s: Pool, step: Step)
    requires Enabled(s, step) && Fifo(s) && Partition(s) && Logged(s)
    requires Fifo(Next(s, step)) && Partition(Next(s, step))
    ensures Logged(Next(s, step))
  {
    hide Fifo, Partition, Logged, Plan, EventsOf;
    if step.RunWork? {
      RunWorkLogged(s, step.w);
    } else if step.RunCallback? {
      RunCallbackLogged(s, step.w);
    } else if step.Finish? {
      FinishLogged(s, step.w);
    } else if step.Examine? && !s.done && s.queue != [] {
      TakeLogged(s, step.w);
    } else {
      SameLogged(s, Next(s, step));
    }
  }

  lemma RunWorkLogged(s: Pool, w: nat)
    requires Enabled(s, RunWork(w)) && Fifo(s) && Partition(s) && Logged(s)
    requires Fifo(Next(s, RunWork(w))) && Partition(Next(s, RunWork(w)))
    ensures Logged(Next(s, RunWork(w)))
  {
    HolderStarted(s, w);
    hide Fifo, Partition, Logged;
    var id := s.workers[w].id;
    RunLogged(s, w, Calling(id), if s.submitted[id].hasWork then [RanWork(id)] else []);
  }

  lemma RunCallbackLogged(s: Pool, w: nat)
    requires Enabled(s, RunCallback(w)) && Fifo(s) && Partition(s) && Logged(s)
    requires Fifo(Next(s, RunCallback(w))) && Partition(Next(s, RunCallback(w)))
    ensures Logged(Next(s, RunCallback(w)))
  {
    HolderStarted(s, w);
    hide Fifo, Partition, Logged;
    var id := s.workers[w].id;
    RunLogged(s, w, Finishing(id), if s.submitted[id].hasCallback then [RanCallback(id)] else []);
  }

  /** With nothing queued and nothing active, every order ever added has finished. */
  lemma DrainedMeansFinished(s: Pool)
    requires Fifo(s) && Partition(s) && s.active == Count(Busy, s.workers)
    requires s.queue == [] && s.active <= 0
    ensures FinishedBelow(s, |s.submitted|)
  {
    CountZero(Busy, s.workers);
    assert forall w: nat, id: nat :: !Holds(s, w, id);
    forall id: nat | id < |s.submitted| ensures id in s.finished {
      if id !in s.finished {
        assert false;
      }
    }
  }

  lemma NextSleepers(s: Pool, step: Step)
    requires Enabled(s, step) && SleepersKept(s) && s.active == Count(Busy, s.workers)
    requires Next(s, step).active == Count(Busy, Next(s, step).workers)
    ensures SleepersKept(Next(s, step))
  {
  }

  /** A call is kept by every step but a spurious return of its own wait. */
  lemma NextCall(s: Pool, step: Step, c: nat)
    requires Enabled(s, step) && Core(s) && step != SpuriousReturn(c)
    requires Fifo(Next(s, step)) && Partition(Next(s, step))
    requires Next(s, step).active == Count(Busy, Next(s, step).workers)
    requires c < |Next(s, step).calls| && (c < |s.calls| ==> CallKept(s, s.calls[c]))
    ensures CallKept(Next(s, step), Next(s, step).calls[c])
  {
    hide Fifo, Partition, Logged, SleepersKept, Count;
    var t := Next(s, step);
    CoreHolds(s);
    if HaveResults(s) && !s.done {
      DrainedMeansFinished(s);
    }
    if t.queue == [] && t.active <= 0 {
      DrainedMeansFinished(t);
    }
    hide Core;
    assert s.finished <= t.finished && |s.submitted| <= |t.submitted|;
  }

  lemma NextWorkers(s: Pool, step: Step)
    requires Enabled(s, step) && WorkersKept(s)
    ensures WorkersKept(Next(s, step))
  {
    if step.Examine? || step.RunWork? || step.RunCallback? || step.Finish? || step.SpuriousWake? {
      WorkerStepKeepsWorkers(s, step);
    } else if step.AddWork? && SomeAsleep(s.workers) {
      CountUpdate(IsReady, s.workers, step.woken, Ready);
    }
  }

  lemma WorkerStepKeepsWorkers(s: Pool, step: Step)
    requires step.Examine? || step.RunWork? || step.RunCallback? || step.Finish? || step.SpuriousWake?
    requires Enabled(s, step) && WorkersKept(s)
    ensures WorkersKept(Next(s, step))
  {
    hide Count;
    CountUpdate(IsReady, s.workers, step.w, Next(s, step).workers[step.w]);
  }

  lemma NextKeepsCore(s: Pool, step: Step)
    requires Enabled(s, step) && Core(s)
    ensures Core(Next(s, step))
  {
    NextFifo(s, step);
    NextPartition(s, step);
    NextActive(s, step);
    NextLogged(s, step);
    NextWorkers(s, step);
    NextSleepers(s, step);
    hide Fifo, Partition, Logged, WorkersKept, SleepersKept;
  }

  // -------- over whole runs --------

  lemma StartKeepsCore(threads: nat)
    ensures Core(Start(threads))
  {
    CountZero(Busy, Start(threads).workers);
  }

  lemma {:induction false} RunKeepsCore(s: Pool, steps: seq<Step>)
    requires Core(s) && IsRun(s, steps)
    ensures Core(After(s, steps)) && |After(s, steps).workers| == |s.workers|
    decreases |steps|
  {
    hide Core;
    if steps != [] {
      NextKeepsCore(s, steps[0]);
      RunKeepsCore(Next(s, steps[0]), steps[1..]);
    }
  }

  /** A call that is kept stays so over every run without a spurious return of its own wait. */
  lemma {:induction false} RunKeepsCall(s: Pool, steps: seq<Step>, c: nat)
    requires Core(s) && IsRun(s, steps) && SpuriousReturn(c) !in steps
    requires c < |s.calls| ==> CallKept(s, s.calls[c])
    ensures var t := After(s, steps); c < |t.calls| ==> CallKept(t, t.calls[c])
    decreases |steps|
  {
    hide Core, CallKept;
    if steps != [] {
      var t := Next(s, steps[0]);
      NextKeepsCore(s, steps[0]);
      CoreHolds(s);
      CoreHolds(t);
      if c < |t.calls| {
        NextCall(s, steps[0], c);
      }
      hide Next, Fifo, Partition, Logged, WorkersKept, SleepersKept;
      RunKeepsCall(t, steps[1..], c);
    }
  }

  /** The timeout of a call never changes. */
  lemma {:induction false} RunKeepsTimeout(s: Pool, steps: seq<Step>, c: nat)
    requires IsRun(s, steps) && c < |s.calls|
    ensures var t := After(s, steps); c < |t.calls| && t.calls[c].timed == s.calls[c].timed
    decreases |steps|
  {
    if steps != [] {
      RunKeepsTimeout(Next(s, steps[0]), steps[1..], c);
    }
  }

  /** A wait with a timeout has a predicate, so it has no spurious return. */
  lemma {:induction false} TimedIsNotCutShort(s: Pool, steps: seq<Step>, c: nat)
    requires IsRun(s, steps)
    requires var t := After(s, steps); c < |t.calls| && t.calls[c].timed
    ensures SpuriousReturn(c) !in steps
    decreases |steps|
  {
    if steps != [] {
      if steps[0] == SpuriousReturn(c) {
        RunKeepsTimeout(s, steps, c);
      }
      hide Next, Enabled;
      TimedIsNotCutShort(Next(s, steps[0]), steps[1..], c);
    }
  }

  lemma CoreHolds(s: Pool)
    requires Core(s)
    ensures Fifo(s) && Partition(s) && s.active == Count(Busy, s.workers) && Logged(s) && WorkersKept(s) && SleepersKept(s)
  {
    hide Fifo, Partition, Logged, WorkersKept, SleepersKept;
  }

  /** Whatever the interleaving: orders start in the order in which they were added, activeOrders is the number of
      workers between taking an order and reporting it, each order added is in exactly one of queued, running and
      finished, and each has its work run at most once, then its callback at most once. */
  lemma OrdersRunOnceInOrder(threads: nat, steps: seq<Step>)
    requires IsRun(Start(threads), steps)
    ensures var s := After(Start(threads), steps);
      && |s.workers| == threads
      && s.started == seq(|s.started|, k => k)
      && s.queue == seq(|s.queue|, k => |s.started| + k)
      && s.active == Count(Busy, s.workers)
      && forall id: nat | id < |s.submitted| ::
           var running := exists w: nat :: Holds(s, w, id);
           && (id in s.queue <==> !running && id !in s.finished)
           && !(running && id in s.finished)
           && (id in s.finished ==> EventsOf(s.log, id) == Plan(id, s.submitted[id], true, true))
           && exists worked, called :: (called ==> worked) && EventsOf(s.log, id) == Plan(id, s.submitted[id], worked, called)
  {
    StartKeepsCore(threads);
    RunKeepsCore(Start(threads), steps);
    var s := After(Start(threads), steps);
    CoreHolds(s);
    forall id: nat | id < |s.submitted|
      ensures var running := exists w: nat :: Holds(s, w, id);
        && (id in s.queue <==> !running && id !in s.finished)
        && !(running && id in s.finished)
        && exists worked, called :: (called ==> worked) && EventsOf(s.log, id) == Plan(id, s.submitted[id], worked, called)
    {
      hide Plan, EventsOf;
      if |s.started| <= id {
        assert s.queue[id - |s.started|] == id;
        NothingRun(s, id);
      } else if id !in s.finished {
        var w: nat :| Holds(s, w, id);
        assert EventsOf(s.log, id) == Plan(id, s.submitted[id], !s.workers[w].Working?, s.workers[w].Finishing?);
      }
    }
  }

  lemma NothingRun(s: Pool, id: nat)
    requires EventsOf(s.log, id) == [] && id < |s.submitted|
    ensures EventsOf(s.log, id) == Plan(id, s.submitted[id], false, false)
  {
  }

  lemma {:induction false} RunKeepsReturned(s: Pool, steps: seq<Step>, c: nat)
    requires IsRun(s, steps) && c < |s.calls| && s.calls[c].Returned?
    ensures var t := After(s, steps); c < |t.calls| && t.calls[c] == s.calls[c]
    decreases |steps|
  {
    if steps != [] {
      RunKeepsReturned(Next(s, steps[0]), steps[1..], c);
    }
  }

  /** While a call has not returned, its wait has not returned spuriously. */
  lemma {:induction false} WaitingIsNotCutShort(s: Pool, steps: seq<Step>, c: nat)
    requires IsRun(s, steps)
    requires var t := After(s, steps); c < |t.calls| && !t.calls[c].Returned?
    ensures SpuriousReturn(c) !in steps
    decreases |steps|
  {
    if steps != [] {
      if steps[0] == SpuriousReturn(c) {
        RunKeepsReturned(Next(s, steps[0]), steps[1..], c);
      }
      hide Next, Enabled;
      WaitingIsNotCutShort(Next(s, steps[0]), steps[1..], c);
    }
  }

  /** Every order added before the call has had its work and its callback run. */
  ghost predicate AllRun(s: Pool, seen: nat) {
    seen <= |s.submitted| &&
    forall id: nat | id < seen :: id in s.finished && EventsOf(s.log, id) == Plan(id, s.submitted[id], true, true)
  }

  /** Over every run, spurious returns of other waits included: whenever WaitForResults returns true, every order added
      before the call has had its work and its callback run, if the call was given a timeout or its own wait did not
      return spuriously. It returns false only if it was given a timeout or the pool is being shut down. */
  lemma WaitIsSafe(threads: nat, steps: seq<Step>, c: nat)
    requires IsRun(Start(threads), steps)
    requires var s := After(Start(threads), steps);
      c < |s.calls| && s.calls[c].Returned? && (s.calls[c].timed || SpuriousReturn(c) !in steps)
    ensures var s := After(Start(threads), steps);
      if s.calls[c].result then AllRun(s, s.calls[c].seen) else s.calls[c].timed || s.done
  {
    StartKeepsCore(threads);
    RunKeepsCore(Start(threads), steps);
    var s := After(Start(threads), steps);
    if s.calls[c].timed {
      TimedIsNotCutShort(Start(threads), steps, c);
    }
    RunKeepsCall(Start(threads), steps, c);
    CoreHolds(s);
  }

  /** Call c returns in this step. */
  predicate Returns(s: Pool, step: Step, c: nat)
    requires Enabled(s, step)
  {
    var t := Next(s, step);
    c < |t.calls| && t.calls[c].Returned? && (c < |s.calls| ==> !s.calls[c].Returned?)
  }

  /** Which steps of a run make a call return true too early: exactly a spurious return of its own untimed wait, before
      the shutdown, while an order added before the call has not finished. */
  lemma ReturnsTooEarlyExactly(threads: nat, steps: seq<Step>, step: Step, c: nat)
    requires IsRun(Start(threads), steps) && Enabled(After(Start(threads), steps), step)
    requires Returns(After(Start(threads), steps), step, c)
    ensures
      var s := After(Start(threads), steps);
      var t := Next(s, step);
      t.calls[c].result && !FinishedBelow(t, t.calls[c].seen) <==>
      step == SpuriousReturn(c) && !s.done && !FinishedBelow(s, s.calls[c].seen)
  {
    var s := After(Start(threads), steps);
    StartKeepsCore(threads);
    RunKeepsCore(Start(threads), steps);
    NextKeepsCore(s, step);
    CoreHolds(s);
    CoreHolds(Next(s, step));
    if step != SpuriousReturn(c) {
      if c < |s.calls| {
        WaitingIsNotCutShort(Start(threads), steps, c);
        RunKeepsCall(Start(threads), steps, c);
      }
      NextCall(s, step, c);
    }
  }

  /** The step is one of the call's own: it starts, looks again, runs into its timeout, or its wait is cut short. */
  predicate IsStepOf(s: Pool, step: Step, c: nat) {
    (step.StartWait? && c == |s.calls|) || step == Wake(c) || step == TimeOut(c) || step == SpuriousReturn(c)
  }

  /** Before the shutdown nothing is queued or active exactly when every order has finished. */
  lemma IdleIsFinished(s: Pool)
    requires Core(s)
    ensures s.queue == [] && s.active == 0 <==> FinishedBelow(s, |s.submitted|)
  {
    hide Logged, WorkersKept, SleepersKept;
    CountZero(Busy, s.workers);
    if s.queue == [] && s.active == 0 {
      DrainedMeansFinished(s);
    } else if s.queue != [] {
      assert |s.started| < |s.submitted| && |s.started| !in s.finished;
    } else {
      var w :| 0 <= w < |s.workers| && Busy(s.workers[w]);
      assert Holds(s, w, s.workers[w].id);
      assert s.workers[w].id < |s.submitted| && s.workers[w].id !in s.finished;
    }
  }

  /** What a call does at a step of its own in a state that a run may reach. */
  lemma OwnStep(s: Pool, step: Step, c: nat)
    requires Core(s) && Enabled(s, step) && IsStepOf(s, step, c)
    ensures
      var t, finished := Next(s, step), FinishedBelow(s, |s.submitted|);
      && c < |t.calls| && t.done == s.done && t.finished == s.finished && t.submitted == s.submitted
      && t.calls[c].timed == (if step.StartWait? then step.timed else s.calls[c].timed)
      && t.calls[c].seen == (if step.StartWait? then |s.submitted| else s.calls[c].seen)
      && (t.calls[c].Returned? <==>
            s.done || finished || step.TimeOut? || step.SpuriousReturn? || (step.Wake? && !t.calls[c].timed))
      && (t.calls[c].Returned? ==> (t.calls[c].result <==> !s.done && (t.calls[c].timed ==> finished)))
  {
    IdleIsFinished(s);
    hide Core, FinishedBelow;
  }

  /** A call that has not returned can only return in a step of its own, and what it has returned stays. */
  lemma OtherStep(s: Pool, step: Step, c: nat)
    requires Enabled(s, step) && c < |s.calls| && (!IsStepOf(s, step, c) || s.calls[c].Returned?)
    ensures c < |Next(s, step).calls| && (Next(s, step).calls[c].Returned? <==> s.calls[c].Returned?)
    ensures s.calls[c].Returned? ==> Next(s, step).calls[c] == s.calls[c]
  {
  }

  /**
    * When a call returns and what, over every run. With a timeout it returns true exactly if the pool is not being shut
    * down and every order added so far, by whomever, has finished; without one exactly if the pool is not being shut
    * down. It returns at all exactly if everything has finished or the pool is being shut down, or it has run into its
    * timeout, or it has none and was woken. This holds at each of its own steps; in no other step does it return.
    */
  lemma ReturnsExactly(threads: nat, steps: seq<Step>, step: Step, c: nat)
    requires IsRun(Start(threads), steps) && Enabled(After(Start(threads), steps), step)
    ensures
      var s := After(Start(threads), steps);
      var t, finished := Next(s, step), FinishedBelow(s, |s.submitted|);
      if IsStepOf(s, step, c) then
        && c < |t.calls|
        && (t.calls[c].Returned? <==>
              s.done || finished || step.TimeOut? || step.SpuriousReturn? || (step.Wake? && !t.calls[c].timed))
        && (t.calls[c].Returned? ==> (t.calls[c].result <==> !s.done && (t.calls[c].timed ==> finished)))
      else !Returns(s, step, c)
  {
    StartKeepsCore(threads);
    RunKeepsCore(Start(threads), steps);
    var s := After(Start(threads), steps);
    if IsStepOf(s, step, c) {
      OwnStep(s, step, c);
    } else if c < |s.calls| {
      OtherStep(s, step, c);
    }
  }

  /** What a run must not do to a call that waits with or without a timeout. */
  ghost predicate NeverTooEarly(threads: nat, timed: bool) {
    forall steps, c: nat :: IsRun(Start(threads), steps) ==> SafeReturn(After(Start(threads), steps), c, timed)
  }

  ghost predicate SafeReturn(s: Pool, c: nat, timed: bool) {
    c < |s.calls| && s.calls[c].Returned? && s.calls[c].timed == timed && s.calls[c].result ==>
      AllRun(s, s.calls[c].seen)
  }

  /** A run in which an untimed wait, which has no loop around it, returns spuriously, as the C++ standard lets it, and
      reports success with an order still queued. */
  lemma SpuriousReturnBreaksWait(threads: nat) returns (steps: seq<Step>)
    ensures IsRun(Start(threads), steps)
    ensures var s := After(Start(threads), steps); s.calls == [Returned(1, false, true)] && s.queue == [0] && s.finished == {}
  {
    var add, wait, cut := AddWork(Order(true, false), 0), StartWait(false), SpuriousReturn(0);
    var s1 := Next(Start(threads), add);
    var s2 := Next(s1, wait);
    assert s2.calls == [Sleeping(1, false)];
    steps := [add, wait, cut];
    OneStep(s2, cut, []);
    OneStep(s1, wait, [cut]);
    OneStep(Start(threads), add, [wait, cut]);
  }

  lemma OneStep(s: Pool, step: Step, rest: seq<Step>)
    requires Enabled(s, step) && IsRun(Next(s, step), rest)
    ensures IsRun(s, [step] + rest) && After(s, [step] + rest) == After(Next(s, step), rest)
  {
    assert ([step] + rest)[1..] == rest;
    hide Next, Enabled;
  }

  /** What a caller can rely on: in every run a true result is right exactly if the call was given a timeout. */
  lemma SafeExactlyWithTimeout(threads: nat, timed: bool)
    ensures NeverTooEarly(threads, timed) <==> timed
  {
    if timed {
      forall steps, c: nat | IsRun(Start(threads), steps) ensures SafeReturn(After(Start(threads), steps), c, true) {
        var s := After(Start(threads), steps);
        if c < |s.calls| && s.calls[c].Returned? && s.calls[c].timed {
          WaitIsSafe(threads, steps, c);
        }
      }
    } else {
      var steps := SpuriousReturnBreaksWait(threads);
      hide Start, After;
      assert 0 !in After(Start(threads), steps).finished;
      assert !SafeReturn(After(Start(threads), steps), 0, false);
    }
  }

  /** No wakeup is lost. Before shutdown, if a worker sleeps then at least as many workers are on their way to the
      queue as it has orders; and a call sleeps only while an order is queued or active. */
  lemma NoLostWakeup(threads: nat, steps: seq<Step>)
    requires IsRun(Start(threads), steps)
    ensures var s := After(Start(threads), steps);
      && (!s.done && SomeAsleep(s.workers) ==> |s.queue| <= Count(IsReady, s.workers))
      && (forall c :: 0 <= c < |s.calls| && s.calls[c].Sleeping? ==> s.queue != [] || 0 < s.active)
  {
    StartKeepsCore(threads);
    RunKeepsCore(Start(threads), steps);
    CoreHolds(After(Start(threads), steps));
  }

  // -------- progress --------

  predicate IsWorkerStep(step: Step) {
    step.Examine? || step.RunWork? || step.RunCallback? || step.Finish?
  }

  function Weight(worker: Worker): nat {
    match worker
    case Working(_) => 4
    case Calling(_) => 3
    case Finishing(_) => 2
    case Ready => 1
    case _ => 0
  }

  function TotalWeight(workers: seq<Worker>): nat {
    if workers == [] then 0 else TotalWeight(workers[..|workers|-1]) + Weight(workers[|workers|-1])
  }

  /** A bound on the steps that the workers can still take by themselves. */
  function Remaining(s: Pool): nat {
    4 * |s.queue| + TotalWeight(s.workers)
  }

  lemma {:induction false} WeightUpdate(workers: seq<Worker>, w: nat, x: Worker)
    requires w < |workers|
    ensures TotalWeight(workers[w := x]) == TotalWeight(workers) - Weight(workers[w]) + Weight(x)
  {
    var n := |workers| - 1;
    if w < n {
      WeightUpdate(workers[..n], w, x);
      assert workers[w := x][..n] == workers[..n][w := x];
    } else {
      assert workers[w := x][..n] == workers[..n];
    }
  }

  lemma WorkerStepDecreases(s: Pool, step: Step)
    requires Enabled(s, step) && IsWorkerStep(step)
    ensures Remaining(Next(s, step)) < Remaining(s)
  {
    WeightUpdate(s.workers, step.w, Next(s, step).workers[step.w]);
  }

  /** The workers cannot go on for ever without new work or wakeups. */
  lemma {:induction false} WorkerRunsEnd(s: Pool, steps: seq<Step>)
    requires IsRun(s, steps) && forall k :: 0 <= k < |steps| ==> IsWorkerStep(steps[k])
    ensures |steps| <= Remaining(s)
    decreases |steps|
  {
    if steps != [] {
      WorkerStepDecreases(s, steps[0]);
      WorkerRunsEnd(Next(s, steps[0]), steps[1..]);
    }
  }

  /** After the shutdown no order is started any more: those that are queued stay there, in front of later ones. */
  lemma {:induction false} NothingStartsAfterShutdown(s: Pool, steps: seq<Step>)
    requires s.done && IsRun(s, steps)
    ensures var t := After(s, steps); t.done && t.started == s.started && s.queue <= t.queue
    decreases |steps|
  {
    if steps != [] {
      NothingStartsAfterShutdown(Next(s, steps[0]), steps[1..]);
    }
  }

  /** Each call that has not returned can do so in its next step, with that result. */
  ghost predicate AllReturn(s: Pool, result: bool) {
    forall c: nat :: c < |s.calls| && !s.calls[c].Returned? ==> CanReturn(s, c, result)
  }

  ghost predicate CanReturn(s: Pool, c: nat, result: bool)
    requires c < |s.calls|
  {
    Enabled(s, Wake(c)) && Next(s, Wake(c)).calls[c] == Returned(s.calls[c].seen, s.calls[c].timed, result)
  }

  predicate WorkersStuck(s: Pool) {
    forall w :: 0 <= w < |s.workers| ==>
      !Enabled(s, Examine(w)) && !Enabled(s, RunWork(w)) && !Enabled(s, RunCallback(w)) && !Enabled(s, Finish(w))
  }

  /** When they can go no further, all work is done, nobody waits for it, and every call that has not returned yet can
      look again and then returns true; after the shutdown has been announced, all threads have exited, so that the
      destructor can join them and release the waiters, which then can look again and return false. */
  lemma StuckMeansDone(threads: nat, steps: seq<Step>)
    requires 1 <= threads && IsRun(Start(threads), steps)
    requires WorkersStuck(After(Start(threads), steps))
    ensures var s := After(Start(threads), steps);
      && (!s.done ==> s.queue == [] && s.active == 0 && FinishedBelow(s, |s.submitted|))
      && (!s.done ==> forall c :: 0 <= c < |s.calls| ==> !s.calls[c].Sleeping?)
      && (!s.done ==> AllReturn(s, true))
      && (s.workersNotified ==> Enabled(s, NotifyWaiters) && AllReturn(Next(s, NotifyWaiters), false))
  {
    StartKeepsCore(threads);
    RunKeepsCore(Start(threads), steps);
    var s := After(Start(threads), steps);
    hide Core;
    StuckWorkers(s);
    if s.done {
      if s.workersNotified {
        ReleasedReturn(s);
      }
    } else {
      CoreHolds(s);
      IdleIsFinished(s);
      IdleReturn(s);
    }
  }

  lemma StuckWorkers(s: Pool)
    requires Core(s) && WorkersStuck(s) && s.workers != []
    ensures !s.done ==> s.queue == [] && s.active == 0
    ensures s.workersNotified ==> Enabled(s, NotifyWaiters)
  {
    hide Fifo, Partition, Logged;
    forall w | 0 <= w < |s.workers| ensures s.workers[w].Asleep? || s.workers[w].Exited? {
      assert !Enabled(s, Examine(w)) && !Enabled(s, RunWork(w));
    }
    CountZero(Busy, s.workers);
    CountZero(IsReady, s.workers);
    assert !s.done ==> s.workers[0].Asleep?;
  }

  lemma IdleReturn(s: Pool)
    requires SleepersKept(s) && !s.done && s.queue == [] && s.active == 0
    ensures AllReturn(s, true)
  {
    forall c: nat | c < |s.calls| && !s.calls[c].Returned? ensures CanReturn(s, c, true) {
    }
  }

  lemma ReleasedReturn(s: Pool)
    requires s.done && Enabled(s, NotifyWaiters)
    ensures AllReturn(Next(s, NotifyWaiters), false)
  {
    var t := Next(s, NotifyWaiters);
    forall c: nat | c < |t.calls| && !t.calls[c].Returned? ensures CanReturn(t, c, false) {
    }
  }
}
