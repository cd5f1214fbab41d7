/** The thread pool of the HTTP server: worker threads, one mutex, one condition variable, and the thread
    that enqueues jobs and finally shuts the pool down.  Every access under the mutex is its own step. */
module ThreadPool {

  /** Where a worker thread is; Checking, Got and Leaving hold the mutex. */
  datatype Worker<T> =
    | Ready              // about to lock the mutex
    | Checking           // evaluates the condition it waits for
    | Waiting            // blocked on the condition variable, mutex released
    | Waking             // notified, or woken spuriously; has to lock the mutex again
    | Got(job: T)        // took a job out of the queue
    | Running(job: T)    // runs it, mutex released
    | Leaving            // saw the shutdown and an empty queue
    | Exited

  /** Where the listening thread is; Pushing, Notifying, Unlocking, Setting and Releasing hold the mutex. */
  datatype Client<T> =
    | Idle
    | Enqueuing(job: T) | Pushing(job: T) | Notifying | Unlocking
    | Stopping | Setting | Releasing | Announcing | Joining(next: nat) | Done

  datatype Owner = Free | ByWorker(i: nat) | ByClient

  /** `enqueued`, `taken` and `finished` record the history, oldest first. */
  datatype Pool<T> = Pool(
    workers: seq<Worker<T>>, jobs: seq<T>, shutdown: bool, owner: Owner, client: Client<T>,
    enqueued: seq<T>, taken: seq<T>, finished: seq<T>)

  datatype Step<T> =
    | Lock(i: nat) | Check(i: nat) | Unlock(i: nat) | Finish(i: nat) | WakeUp(i: nat)
    | Submit(job: T) | Acquire | Push | NotifyOne(i: nat) | NotifyNone | Release
    | Stop | Set | NotifyAll | Join

  predicate Enabled<T(==)>(s: Pool<T>, step: Step<T>) {
    match step
    case Lock(i) => i < |s.workers| && (s.workers[i].Ready? || s.workers[i].Waking?) && s.owner.Free?
    case Check(i) => i < |s.workers| && s.workers[i].Checking?
    case Unlock(i) => i < |s.workers| && (s.workers[i].Got? || s.workers[i].Leaving?)
    case Finish(i) => i < |s.workers| && s.workers[i].Running?
    case WakeUp(i) => i < |s.workers| && s.workers[i].Waiting?
    case Submit(_) => s.client.Idle?
    case Acquire => (s.client.Enqueuing? || s.client.Stopping?) && s.owner.Free?
    case Push => s.client.Pushing?
    case NotifyOne(i) => s.client.Notifying? && i < |s.workers| && s.workers[i].Waiting?
    case NotifyNone => s.client.Notifying? && forall j :: 0 <= j < |s.workers| ==> !s.workers[j].Waiting?
    case Release => s.client.Unlocking? || s.client.Releasing?
    case Stop => s.client.Idle?
    case Set => s.client.Setting?
    case NotifyAll => s.client.Announcing?
    case Join =>
      s.client.Joining? && (s.client.next < |s.workers| ==> s.workers[s.client.next].Exited?)
  }

  /** What a worker does with the mutex held: wait, leave, or take the oldest job. */
  function Checked<T>(s: Pool<T>, i: nat): (s': Pool<T>)
    requires i < |s.workers|
  {
    if s.jobs == [] && !s.shutdown then s.(workers := s.workers[i := Waiting], owner := Free)
    else if s.jobs == [] then s.(workers := s.workers[i := Leaving])
    else s.(workers := s.workers[i := Got(s.jobs[0])], jobs := s.jobs[1..], taken := s.taken + [s.jobs[0]])
  }

  function Woken<T>(w: Worker<T>): (w': Worker<T>) {
    if w.Waiting? then Waking else w
  }

  function AllWoken<T>(ws: seq<Worker<T>>): (ws': seq<Worker<T>>) {
    seq(|ws|, i requires 0 <= i < |ws| => Woken(ws[i]))
  }

  function Apply<T>(s: Pool<T>, step: Step<T>): (s': Pool<T>)
    requires Enabled(s, step)
  {
    match step
    case Lock(i) => s.(workers := s.workers[i := Checking], owner := ByWorker(i))
    case Check(i) => Checked(s, i)
    case Unlock(i) =>
      s.(workers := s.workers[i := if s.workers[i].Got? then Running(s.workers[i].job) else Exited], owner := Free)
    case Finish(i) =>
      s.(workers := s.workers[i := Ready], finished := s.finished + [s.workers[i].job])
    case WakeUp(i) => s.(workers := s.workers[i := Waking])
    case Submit(job) => s.(client := Enqueuing(job))
    case Acquire => s.(client := if s.client.Enqueuing? then Pushing(s.client.job) else Setting, owner := ByClient)
    case Push =>
      s.(client := Notifying, jobs := s.jobs + [s.client.job], enqueued := s.enqueued + [s.client.job])
    case NotifyOne(i) => s.(client := Unlocking, workers := s.workers[i := Waking])
    case NotifyNone => s.(client := Unlocking)
    case Release => s.(client := if s.client.Unlocking? then Idle else Announcing, owner := Free)
    case Stop => s.(client := Stopping)
    case Set => s.(client := Releasing, shutdown := true)
    case NotifyAll => s.(client := Joining(0), workers := AllWoken(s.workers))
    case Join => s.(client := if s.client.next < |s.workers| then Joining(s.client.next + 1) else Done)
  }

  function Initial<T>(n: nat): (s: Pool<T>)
  {
    Pool(seq(n, i => Ready), [], false, Free, Idle, [], [], [])
  }

  /** A run takes enabled steps only. */
  ghost predicate IsRun<T>(s: Pool<T>, steps: seq<Step<T>>, s': Pool<T>)
    decreases |steps|
  {
    if steps == [] then s == s' else Enabled(s, steps[0]) && IsRun(Apply(s, steps[0]), steps[1..], s')
  }

  // ----- what every step keeps -----

  predicate HoldsMutex<T>(w: Worker<T>) {
    w.Checking? || w.Got? || w.Leaving?
  }

  predicate ClientHoldsMutex<T>(c: Client<T>) {
    c.Pushing? || c.Notifying? || c.Unlocking? || c.Setting? || c.Releasing?
  }

  predicate Awake<T>(w: Worker<T>) {
    w.Ready? || w.Checking? || w.Waking? || w.Got? || w.Running?
  }

  /** The mutex excludes: whoever is in a critical section owns it. */
  ghost predicate Excluded<T>(s: Pool<T>) {
    && (forall i :: 0 <= i < |s.workers| ==> (HoldsMutex(s.workers[i]) <==> s.owner == ByWorker(i)))
    && (ClientHoldsMutex(s.client) <==> s.owner.ByClient?)
    && (s.owner.ByWorker? ==> s.owner.i < |s.workers|)
  }

  predicate Holds<T(==)>(w: Worker<T>, job: T) {
    (w.Got? || w.Running?) && w.job == job
  }

  /** How many workers have this job in hand. */
  function Held<T(==)>(ws: seq<Worker<T>>, job: T): (n: nat) {
    if ws == [] then 0 else Held(ws[..|ws| - 1], job) + if Holds(ws[|ws| - 1], job) then 1 else 0
  }

  function Occurs<T(==)>(jobs: seq<T>, job: T): (n: nat) {
    if jobs == [] then 0 else Occurs(jobs[..|jobs| - 1], job) + if jobs[|jobs| - 1] == job then 1 else 0
  }

  /** Jobs are taken in the order they came; each taken job is in one worker's hands or finished. */
  ghost predicate Conserved<T(!new)>(s: Pool<T>) {
    s.enqueued == s.taken + s.jobs && forall job {:trigger Balanced(s, job)} :: Balanced(s, job)
  }

  ghost predicate Balanced<T>(s: Pool<T>, job: T) {
    Occurs(s.taken, job) == Held(s.workers, job) + Occurs(s.finished, job)
  }

  predicate ShuttingDown<T>(c: Client<T>) {
    c.Releasing? || c.Announcing? || c.Joining? || c.Done?
  }

  ghost predicate SomeAwake<T>(ws: seq<Worker<T>>) {
    exists i :: 0 <= i < |ws| && Awake(ws[i])
  }

  /** No lost wake-up: unless the notification is about to come, a queued job has a worker that will look. */
  ghost predicate Served<T>(s: Pool<T>) {
    s.jobs != [] && s.workers != [] && !s.client.Notifying? ==> SomeAwake(s.workers)
  }

  ghost predicate Ordered<T>(s: Pool<T>) {
    && (s.shutdown <==> ShuttingDown(s.client))
    && (forall i :: 0 <= i < |s.workers| ==>
         (s.workers[i].Leaving? || s.workers[i].Exited? ==> s.shutdown && s.jobs == []))
    && (s.client.Joining? || s.client.Done? ==> forall i :: 0 <= i < |s.workers| ==> !s.workers[i].Waiting?)
    && (s.client.Joining? ==> s.client.next <= |s.workers|)
    && (forall i :: 0 <= i < |s.workers| && Joined(s.client, i) ==> s.workers[i].Exited?)
  }

  predicate Joined<T>(c: Client<T>, i: nat) {
    c.Done? || (c.Joining? && i < c.next)
  }

  ghost predicate Inv<T(!new)>(s: Pool<T>) {
    Excluded(s) && Conserved(s) && Served(s) && Ordered(s)
  }

  // ----- the steps keep it -----

  lemma {:induction false} HeldUpdate<T>(ws: seq<Worker<T>>, i: nat, w: Worker<T>, job: T)
    requires i < |ws|
    ensures Held(ws[i := w], job) + (if Holds(ws[i], job) then 1 else 0)
            == Held(ws, job) + if Holds(w, job) then 1 else 0
  {
    var n := |ws| - 1;
    if i == n {
      assert ws[i := w][..n] == ws[..n];
    } else {
      assert ws[i := w][..n] == ws[..n][i := w];
      HeldUpdate(ws[..n], i, w, job);
    }
  }

  lemma {:induction false} HeldWoken<T>(ws: seq<Worker<T>>, job: T)
    ensures Held(AllWoken(ws), job) == Held(ws, job)
  {
    if ws != [] {
      var n := |ws| - 1;
      assert AllWoken(ws)[..n] == AllWoken(ws[..n]);
      HeldWoken(ws[..n], job);
    }
  }

  lemma {:induction false} HeldNone<T>(ws: seq<Worker<T>>, job: T)
    requires forall i :: 0 <= i < |ws| ==> !ws[i].Got? && !ws[i].Running?
    ensures Held(ws, job) == 0
  {
    if ws != [] {
      HeldNone(ws[..|ws| - 1], job);
    }
  }

  lemma {:induction false} OccursMore<T>(jobs: seq<T>, last: T, job: T)
    ensures Occurs(jobs + [last], job) == Occurs(jobs, job) + if last == job then 1 else 0
  {
    assert (jobs + [last])[..|jobs|] == jobs;
  }

  lemma {:induction false} StepExcludes<T>(s: Pool<T>, step: Step<T>)
    requires Excluded(s) && Enabled(s, step)
    ensures Excluded(Apply(s, step))
  {
  }

  lemma {:induction false} StepConserves<T(!new)>(s: Pool<T>, step: Step<T>)
    requires Conserved(s) && Enabled(s, step)
    ensures Conserved(Apply(s, step))
  {
    forall job
      ensures Balanced(Apply(s, step), job)
    {
      assert Balanced(s, job);
      StepBalances(s, step, job);
    }
    if step.Push? {
      assert s.enqueued + [s.client.job] == s.taken + (s.jobs + [s.client.job]);
    } else if step.Check? && s.jobs != [] {
      assert s.taken + s.jobs == s.taken + [s.jobs[0]] + s.jobs[1..];
    }
  }

  /** A worker that keeps or keeps lacking the job leaves the number of its holders alone. */
  lemma {:induction false} HeldSame<T>(ws: seq<Worker<T>>, i: nat, w: Worker<T>, job: T)
    requires i < |ws| && (Holds(ws[i], job) <==> Holds(w, job))
    ensures Held(ws[i := w], job) == Held(ws, job)
  {
    HeldUpdate(ws, i, w, job);
  }

  lemma {:induction false} CheckBalances<T>(s: Pool<T>, i: nat, job: T)
    requires Balanced(s, job) && i < |s.workers| && s.workers[i].Checking?
    ensures Balanced(Checked(s, i), job)
  {
    HeldUpdate(s.workers, i, Checked(s, i).workers[i], job);
    if s.jobs != [] {
      OccursMore(s.taken, s.jobs[0], job);
    }
  }

  lemma {:induction false} FinishBalances<T>(s: Pool<T>, i: nat, job: T)
    requires Balanced(s, job) && Enabled(s, Finish(i))
    ensures Balanced(Apply(s, Finish(i)), job)
  {
    HeldUpdate(s.workers, i, Ready, job);
    OccursMore(s.finished, s.workers[i].job, job);
  }

  lemma {:induction false} StepBalances<T>(s: Pool<T>, step: Step<T>, job: T)
    requires Balanced(s, job) && Enabled(s, step)
    ensures Balanced(Apply(s, step), job)
  {
    match step
    case Check(i) => CheckBalances(s, i, job);
    case Finish(i) => FinishBalances(s, i, job);
    case Lock(i) => HeldSame(s.workers, i, Checking, job);
    case Unlock(i) => HeldSame(s.workers, i, Apply(s, step).workers[i], job);
    case WakeUp(i) => HeldSame(s.workers, i, Waking, job);
    case NotifyOne(i) => HeldSame(s.workers, i, Waking, job);
    case NotifyAll => HeldWoken(s.workers, job);
    case _ =>
  }

  predicate WorkerSteps<T>(step: Step<T>) {
    step.Lock? || step.Check? || step.Unlock? || step.Finish? || step.WakeUp?
  }

  lemma {:induction false} WorkerOrders<T>(s: Pool<T>, step: Step<T>)
    requires Excluded(s) && Ordered(s) && Enabled(s, step) && WorkerSteps(step)
    ensures Ordered(Apply(s, step))
  {
  }

  lemma {:induction false} ClientOrders<T>(s: Pool<T>, step: Step<T>)
    requires Excluded(s) && Ordered(s) && Enabled(s, step) && !WorkerSteps(step)
    ensures Ordered(Apply(s, step))
  {
  }

  lemma {:induction false} StepOrders<T>(s: Pool<T>, step: Step<T>)
    requires Excluded(s) && Ordered(s) && Enabled(s, step)
    ensures Ordered(Apply(s, step))
  {
    if WorkerSteps(step) {
      WorkerOrders(s, step);
    } else {
      ClientOrders(s, step);
    }
  }

  lemma {:induction false} StepServes<T>(s: Pool<T>, step: Step<T>)
    requires Served(s) && Ordered(s) && Enabled(s, step)
    ensures Served(Apply(s, step))
  {
    var s' := Apply(s, step);
    if s'.jobs != [] && s'.workers != [] && !s'.client.Notifying? {
      match step
      case Lock(i) => assert Awake(s'.workers[i]);
      case Check(i) => assert Awake(s'.workers[i]);
      case Unlock(i) => assert Awake(s'.workers[i]);
      case Finish(i) => assert Awake(s'.workers[i]);
      case WakeUp(i) => assert Awake(s'.workers[i]);
      case NotifyOne(i) => assert Awake(s'.workers[i]);
      case NotifyNone => assert Awake(s'.workers[0]);
      case NotifyAll =>
        var i :| 0 <= i < |s.workers| && Awake(s.workers[i]);
        assert Awake(s'.workers[i]);
      case _ =>
    }
  }

  lemma {:induction false} StepKeeps<T(!new)>(s: Pool<T>, step: Step<T>)
    requires Inv(s) && Enabled(s, step)
    ensures Inv(Apply(s, step))
  {
    StepExcludes(s, step);
    StepConserves(s, step);
    StepOrders(s, step);
    StepServes(s, step);
  }

  lemma {:induction false} RunKeeps<T(!new)>(s: Pool<T>, steps: seq<Step<T>>, s': Pool<T>)
    requires Inv(s) && IsRun(s, steps, s')
    ensures Inv(s') && |s'.workers| == |s.workers|
    decreases |steps|
  {
    if steps != [] {
      StepKeeps(s, steps[0]);
      RunKeeps(Apply(s, steps[0]), steps[1..], s');
    }
  }

  lemma {:induction false} InitialHolds<T(!new)>(n: nat)
    ensures Inv(Initial<T>(n))
  {
    forall job
      ensures Balanced(Initial<T>(n), job)
    {
      HeldNone(Initial<T>(n).workers, job);
    }
  }

  // ----- what was submitted -----

  /** The jobs handed to enqueue, in order. */
  function Submitted<T>(steps: seq<Step<T>>): (jobs: seq<T>)
  {
    if steps == [] then [] else (if steps[0].Submit? then [steps[0].job] else []) + Submitted(steps[1..])
  }

  /** The job enqueue has been called with and has not put into the queue yet. */
  function InHand<T>(c: Client<T>): (jobs: seq<T>) {
    if c.Enqueuing? || c.Pushing? then [c.job] else []
  }

  /** The jobs that workers have run to their end, in order. */
  function Executed<T(==)>(s: Pool<T>, steps: seq<Step<T>>): (jobs: seq<T>)
    decreases |steps|
  {
    if steps == [] || !Enabled(s, steps[0]) then []
    else RunBy(s, steps[0]) + Executed(Apply(s, steps[0]), steps[1..])
  }

  function RunBy<T>(s: Pool<T>, step: Step<T>): (jobs: seq<T>) {
    if step.Finish? && step.i < |s.workers| && s.workers[step.i].Running? then [s.workers[step.i].job] else []
  }

  lemma Regroup<T>(a: seq<T>, b: seq<T>, c: seq<T>)
    ensures a + b + c == a + (b + c)
  {
  }

  lemma {:induction false} StepSubmits<T>(s: Pool<T>, step: Step<T>)
    requires Enabled(s, step)
    ensures (var s' := Apply(s, step);
             s'.enqueued + InHand(s'.client) == s.enqueued + InHand(s.client) + if step.Submit? then [step.job] else [])
    ensures Apply(s, step).finished == s.finished + RunBy(s, step)
  {
  }

  /** Along every run, what has been enqueued and what is about to be is what was submitted, and what has
      finished is what workers have run. */
  lemma {:induction false} RunSubmits<T>(s: Pool<T>, steps: seq<Step<T>>, s': Pool<T>)
    requires IsRun(s, steps, s')
    ensures s'.enqueued + InHand(s'.client) == s.enqueued + InHand(s.client) + Submitted(steps)
    ensures s'.finished == s.finished + Executed(s, steps)
    decreases |steps|
  {
    if steps != [] {
      var s1, rest := Apply(s, steps[0]), steps[1..];
      StepSubmits(s, steps[0]);
      RunSubmits(s1, rest, s');
      Regroup(s.enqueued + InHand(s.client), if steps[0].Submit? then [steps[0].job] else [], Submitted(rest));
      Regroup(s.finished, RunBy(s, steps[0]), Executed(s1, rest));
    }
  }

  /** The same from the start. */
  lemma {:induction false} Recorded<T>(n: nat, steps: seq<Step<T>>, s: Pool<T>)
    requires IsRun(Initial(n), steps, s)
    ensures s.enqueued + InHand(s.client) == Submitted(steps) && s.finished == Executed(Initial(n), steps)
  {
    RunSubmits(Initial(n), steps, s);
    assert [] + Submitted(steps) == Submitted(steps);
    assert [] + Executed(Initial(n), steps) == Executed(Initial(n), steps);
  }

  // ----- what runs guarantee -----

  /** In every reachable state, each job is about to be queued, queued, in the hands of a worker and has been run
      exactly as often as it was submitted, and jobs leave the queue in the order they were submitted. */
  lemma {:induction false} JobsConserved<T(!new)>(n: nat, steps: seq<Step<T>>, s: Pool<T>, job: T)
    requires IsRun(Initial(n), steps, s)
    ensures Occurs(Submitted(steps), job) == Occurs(InHand(s.client), job) + Occurs(s.jobs, job)
                                             + Held(s.workers, job) + Occurs(Executed(Initial(n), steps), job)
    ensures Submitted(steps) == s.taken + s.jobs + InHand(s.client)
  {
    InitialHolds<T>(n);
    RunKeeps(Initial(n), steps, s);
    Recorded(n, steps, s);
    assert Balanced(s, job);
    OccursConcat(s.taken, s.jobs, job);
    OccursConcat(s.taken + s.jobs, InHand(s.client), job);
  }

  lemma {:induction false} OccursConcat<T>(a: seq<T>, b: seq<T>, job: T)
    ensures Occurs(a + b, job) == Occurs(a, job) + Occurs(b, job)
  {
    if b == [] {
      assert a + b == a;
    } else {
      var front, last := b[..|b| - 1], b[|b| - 1];
      assert a + b == (a + front) + [last] && b == front + [last];
      OccursMore(a + front, last, job);
      OccursMore(front, last, job);
      OccursConcat(a, front, job);
    }
  }

  /** Occurrences are multiplicities. */
  lemma {:induction false} OccursMultiset<T>(jobs: seq<T>, job: T)
    ensures Occurs(jobs, job) == multiset(jobs)[job]
  {
    if jobs != [] {
      var front := jobs[..|jobs| - 1];
      assert jobs == front + [jobs[|jobs| - 1]];
      OccursMultiset(front, job);
    }
  }

  /** A worker can always go on while jobs are queued and the client is between two calls. */
  lemma {:induction false} QueueServed<T(!new)>(n: nat, steps: seq<Step<T>>, s: Pool<T>) returns (step: Step<T>)
    requires n > 0 && IsRun(Initial(n), steps, s) && s.jobs != [] && !ClientHoldsMutex(s.client)
    ensures Enabled(s, step) && (step.Lock? || step.Check? || step.Unlock? || step.Finish?)
  {
    InitialHolds<T>(n);
    RunKeeps(Initial(n), steps, s);
    var i :| 0 <= i < |s.workers| && Awake(s.workers[i]);
    step := WorkerStep(s, i);
  }

  /** A worker that neither waits nor has exited can step, or the owner of the mutex can. */
  lemma {:induction false} WorkerStep<T>(s: Pool<T>, i: nat) returns (step: Step<T>)
    requires Excluded(s) && !ClientHoldsMutex(s.client)
    requires i < |s.workers| && !s.workers[i].Waiting? && !s.workers[i].Exited?
    ensures Enabled(s, step) && (step.Lock? || step.Check? || step.Unlock? || step.Finish?)
  {
    if s.workers[i].Running? {
      step := Finish(i);
    } else if s.owner.Free? {
      step := Lock(i);
    } else {
      step := if s.workers[s.owner.i].Checking? then Check(s.owner.i) else Unlock(s.owner.i);
    }
  }

  /** When shutdown returns, every submitted job has run exactly once, unless there never was a worker. */
  lemma {:induction false} ShutdownRunsAll<T(!new)>(n: nat, steps: seq<Step<T>>, s: Pool<T>)
    requires IsRun(Initial(n), steps, s) && s.client.Done?
    ensures multiset(Executed(Initial(n), steps)) == multiset(Submitted(steps)) <==> n > 0 || Submitted(steps) == []
  {
    InitialHolds<T>(n);
    RunKeeps(Initial(n), steps, s);
    Recorded(n, steps, s);
    assert s.enqueued + [] == s.enqueued;
    if n > 0 {
      assert s.workers[0].Exited?;
      AllFinished(s);
    } else {
      NobodyFinishes(Initial(n), steps, s);
      assert s.enqueued != [] ==> multiset(s.enqueued)[s.enqueued[0]] > 0;
    }
  }

  lemma {:induction false} AllFinished<T(!new)>(s: Pool<T>)
    requires Conserved(s) && s.jobs == [] && forall i :: 0 <= i < |s.workers| ==> s.workers[i].Exited?
    ensures multiset(s.finished) == multiset(s.enqueued)
  {
    assert s.taken + [] == s.taken;
    forall job
      ensures multiset(s.finished)[job] == multiset(s.enqueued)[job]
    {
      assert Balanced(s, job);
      HeldNone(s.workers, job);
      OccursMultiset(s.taken, job);
      OccursMultiset(s.finished, job);
    }
  }

  lemma {:induction false} NobodyFinishes<T>(s: Pool<T>, steps: seq<Step<T>>, s': Pool<T>)
    requires s.workers == [] && IsRun(s, steps, s')
    ensures s'.finished == s.finished
    decreases |steps|
  {
    if steps != [] {
      NobodyFinishes(Apply(s, steps[0]), steps[1..], s');
    }
  }

  // ----- shutdown comes to an end -----

  function Rank<T>(w: Worker<T>): (r: nat)
  {
    match w
    case Exited => 0
    case Leaving => 1
    case Checking => 2
    case Ready => 3
    case Waking => 3
    case Running(_) => 4
    case Got(_) => 5
    case Waiting => 4
  }

  function Ranks<T>(ws: seq<Worker<T>>): (r: nat) {
    if ws == [] then 0 else Ranks(ws[..|ws| - 1]) + Rank(ws[|ws| - 1])
  }

  lemma {:induction false} RanksUpdate<T>(ws: seq<Worker<T>>, i: nat, w: Worker<T>)
    requires i < |ws|
    ensures Ranks(ws[i := w]) + Rank(ws[i]) == Ranks(ws) + Rank(w)
  {
    var n := |ws| - 1;
    if i == n {
      assert ws[i := w][..n] == ws[..n];
    } else {
      assert ws[i := w][..n] == ws[..n][i := w];
      RanksUpdate(ws[..n], i, w);
    }
  }

  /** How many more steps a pool that is being joined can take. */
  function StepsLeft<T>(s: Pool<T>): (n: int)
    requires s.client.Joining? || s.client.Done?
  {
    4 * |s.jobs| + Ranks(s.workers) + (if s.client.Done? then 0 else |s.workers| - s.client.next + 1)
  }

  lemma {:induction false} JoiningStep<T>(s: Pool<T>, step: Step<T>)
    requires Excluded(s) && Ordered(s) && Enabled(s, step) && (s.client.Joining? || s.client.Done?)
    ensures (var s' := Apply(s, step); (s'.client.Joining? || s'.client.Done?) && 0 <= StepsLeft(s') < StepsLeft(s))
  {
    var s' := Apply(s, step);
    match step
    case Lock(i) => RanksUpdate(s.workers, i, s'.workers[i]);
    case Check(i) => RanksUpdate(s.workers, i, s'.workers[i]);
    case Unlock(i) => RanksUpdate(s.workers, i, s'.workers[i]);
    case Finish(i) => RanksUpdate(s.workers, i, s'.workers[i]);
    case _ =>
  }

  /** Once the notification is out, no run is longer than StepsLeft, whatever the threads do. */
  lemma {:induction false} ShutdownBounded<T(!new)>(s: Pool<T>, steps: seq<Step<T>>, s': Pool<T>)
    requires Inv(s) && (s.client.Joining? || s.client.Done?) && IsRun(s, steps, s')
    ensures |steps| <= StepsLeft(s)
    decreases |steps|
  {
    if steps != [] {
      JoiningStep(s, steps[0]);
      StepKeeps(s, steps[0]);
      ShutdownBounded(Apply(s, steps[0]), steps[1..], s');
    }
  }

  lemma {:induction false} AcquireOrWait<T>(s: Pool<T>) returns (step: Step<T>)
    requires Excluded(s) && (s.client.Enqueuing? || s.client.Stopping?)
    ensures Enabled(s, step)
    ensures step.Acquire? || ((step.Check? || step.Unlock?) && s.owner == ByWorker(step.i))
  {
    if s.owner.Free? {
      step := Acquire;
    } else {
      step := if s.workers[s.owner.i].Checking? then Check(s.owner.i) else Unlock(s.owner.i);
    }
  }

  // ----- nothing gets stuck -----

  /** How far the listening thread is from joining the workers, and from owning the mutex. */
  function Distance<T>(s: Pool<T>): (d: nat) {
    3 * Phase(s.client) + if s.owner.ByWorker? && s.owner.i < |s.workers| then OwnerRank(s.workers[s.owner.i]) else 0
  }

  function Phase<T>(c: Client<T>): (p: nat) {
    match c
    case Enqueuing(_) => 9
    case Pushing(_) => 8
    case Notifying => 7
    case Unlocking => 6
    case Idle => 5
    case Stopping => 4
    case Setting => 3
    case Releasing => 2
    case Announcing => 1
    case Joining(_) => 0
    case Done => 0
  }

  function OwnerRank<T>(w: Worker<T>): (r: nat) {
    if w.Checking? then 2 else if w.Got? || w.Leaving? then 1 else 0
  }

  /** The listening thread gets on by a step of its own or, where it waits for the mutex, of the owner. */
  lemma {:induction false} ClientGoesOn<T(!new)>(s: Pool<T>) returns (step: Step<T>)
    requires Inv(s) && !s.client.Joining? && !s.client.Done?
    ensures Enabled(s, step) && !step.Submit? && !step.WakeUp? && Distance(Apply(s, step)) < Distance(s)
    ensures !s.client.Idle? ==> !step.Stop?
  {
    match s.client
    case Idle => step := Stop;
    case Pushing(_) => step := Push;
    case Notifying =>
      if i :| 0 <= i < |s.workers| && s.workers[i].Waiting? {
        step := NotifyOne(i);
      } else {
        step := NotifyNone;
      }
    case Unlocking => step := Release;
    case Setting => step := Set;
    case Releasing => step := Release;
    case Announcing => step := NotifyAll;
    case Enqueuing(_) => step := AcquireOrWait(s);
    case Stopping => step := AcquireOrWait(s);
  }

  lemma {:induction false} JoinGoesOn<T(!new)>(s: Pool<T>) returns (step: Step<T>)
    requires Inv(s) && s.client.Joining?
    ensures Enabled(s, step) && !step.Submit? && !step.WakeUp?
  {
    var k := s.client.next;
    if k == |s.workers| || s.workers[k].Exited? {
      step := Join;
    } else {
      step := WorkerStep(s, k);
    }
  }

  /** No reachable state is stuck before shutdown has returned. */
  lemma {:induction false} NoDeadlock<T(!new)>(n: nat, steps: seq<Step<T>>, s: Pool<T>) returns (step: Step<T>)
    requires IsRun(Initial(n), steps, s) && !s.client.Done?
    ensures Enabled(s, step) && !step.Submit? && !step.WakeUp?
  {
    InitialHolds<T>(n);
    RunKeeps(Initial(n), steps, s);
    if s.client.Joining? {
      step := JoinGoesOn(s);
    } else {
      step := ClientGoesOn(s);
    }
  }

  lemma {:induction false} OneMore<T>(s: Pool<T>, step: Step<T>, steps: seq<Step<T>>, s': Pool<T>)
    requires Enabled(s, step) && IsRun(Apply(s, step), steps, s')
    ensures IsRun(s, [step] + steps, s')
    ensures Submitted([step] + steps) == (if step.Submit? then [step.job] else []) + Submitted(steps)
  {
    assert ([step] + steps)[1..] == steps;
  }

  /** From any state the pool can reach, enqueue returns. */
  lemma {:induction false} EnqueueReturns<T(!new)>(s: Pool<T>) returns (steps: seq<Step<T>>, s': Pool<T>)
    requires Inv(s) && InEnqueue(s.client)
    ensures IsRun(s, steps, s') && s'.client.Idle? && Inv(s') && Submitted(steps) == []
    decreases Distance(s)
  {
    if s.client.Idle? {
      return [], s;
    }
    var step := ClientGoesOn(s);
    StepKeeps(s, step);
    StaysInEnqueue(s, step);
    steps, s' := EnqueueReturns(Apply(s, step));
    OneMore(s, step, steps, s');
    steps := [step] + steps;
  }

  predicate InEnqueue<T>(c: Client<T>) {
    c.Idle? || c.Enqueuing? || c.Pushing? || c.Notifying? || c.Unlocking?
  }

  lemma {:induction false} StaysInEnqueue<T>(s: Pool<T>, step: Step<T>)
    requires Enabled(s, step) && InEnqueue(s.client) && !step.Stop?
    ensures InEnqueue(Apply(s, step).client)
  {
  }

  /** From any such state, shutdown returns. */
  lemma {:induction false} ShutdownReturns<T(!new)>(s: Pool<T>) returns (steps: seq<Step<T>>, s': Pool<T>)
    requires Inv(s)
    ensures IsRun(s, steps, s') && s'.client.Done? && Submitted(steps) == []
    decreases if s.client.Done? then 0 else if s.client.Joining? then 1 else 2,
              if s.client.Joining? then StepsLeft(s) else if s.client.Done? then 0 else Distance(s)
  {
    if s.client.Done? {
      return [], s;
    }
    var step;
    if s.client.Joining? {
      step := JoinGoesOn(s);
      JoiningStep(s, step);
    } else {
      step := ClientGoesOn(s);
    }
    StepKeeps(s, step);
    steps, s' := ShutdownReturns(Apply(s, step));
    OneMore(s, step, steps, s');
    steps := [step] + steps;
  }

  lemma {:induction false} RunsJoin<T>(s: Pool<T>, a: seq<Step<T>>, s1: Pool<T>, b: seq<Step<T>>, s2: Pool<T>)
    requires IsRun(s, a, s1) && IsRun(s1, b, s2)
    ensures IsRun(s, a + b, s2) && Submitted(a + b) == Submitted(a) + Submitted(b)
    decreases |a|
  {
    if a == [] {
      assert a + b == b && [] + Submitted(b) == Submitted(b);
    } else {
      assert (a + b)[1..] == a[1..] + b && (a + b)[0] == a[0];
      RunsJoin(Apply(s, a[0]), a[1..], s1, b, s2);
      Regroup(if a[0].Submit? then [a[0].job] else [], Submitted(a[1..]), Submitted(b));
    }
  }

  /** Any jobs can be submitted, one after the other. */
  lemma {:induction false} AllSubmitted<T(!new)>(s: Pool<T>, jobs: seq<T>) returns (steps: seq<Step<T>>, s': Pool<T>)
    requires Inv(s) && s.client.Idle?
    ensures IsRun(s, steps, s') && s'.client.Idle? && Inv(s') && Submitted(steps) == jobs
    decreases |jobs|
  {
    if jobs == [] {
      return [], s;
    }
    var submit := Submit(jobs[0]);
    StepKeeps(s, submit);
    var back, s1 := EnqueueReturns(Apply(s, submit));
    OneMore(s, submit, back, s1);
    var rest, s2 := AllSubmitted(s1, jobs[1..]);
    RunsJoin(s, [submit] + back, s1, rest, s2);
    steps, s' := [submit] + back + rest, s2;
  }

  /** For every number of workers and all jobs, there is a run that submits exactly these and shuts down. */
  lemma {:induction false} RunExists<T(!new)>(n: nat, jobs: seq<T>) returns (steps: seq<Step<T>>, s: Pool<T>)
    ensures IsRun(Initial(n), steps, s) && s.client.Done? && Submitted(steps) == jobs
  {
    InitialHolds<T>(n);
    var a, s1 := AllSubmitted(Initial<T>(n), jobs);
    var b, s2 := ShutdownReturns(s1);
    RunsJoin(Initial(n), a, s1, b, s2);
    steps, s := a + b, s2;
  }
}
