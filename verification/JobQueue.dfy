// mini_shell_game_queue.c: a bounded job queue with two condition variables, worker threads that
// strike a boss under a second lock, and an orderly shutdown, as a system of interleaved steps.
module JobQueue {
  import opened Wrappers
  import opened JobList

  const MAX_QUEUE_SIZE: nat := 8
  const FULL_HP: real := 1000.0

  // Where a worker is. Between Testing and Exiting it holds the queue lock.
  datatype Worker =
    | Entering            // about to lock the queue
    | Testing             // at the test of the wait loop
    | Parking             // the test said wait; the lock is still held
    | Waiting             // waiting on not_empty
    | Woken               // woken, about to take the lock again
    | Leaving             // past the wait loop
    | Carrying(job: Job)  // has taken a job, about to unlock
    | Exiting             // about to unlock and return no job
    | Striking(job: Job)  // about to try the timed lock on the boss
    | Hitting(job: Job)   // holds the boss lock
    | Done

  // Where the main thread is; it is the only producer.
  datatype Main =
    | Idle
    | Offering(job: Job)   // about to lock the queue
    | Measuring(job: Job)  // holds the lock, at the test of the wait loop
    | Blocked(job: Job)    // waiting on not_full
    | Roused(job: Job)     // woken, about to take the lock again
    | Sent                 // has queued the job, about to unlock
    | Stopping             // has cleared running, about to lock the queue
    | Announcing           // holds the lock, about to broadcast both conditions
    | Announced            // about to unlock
    | Joining
    | Finished

  datatype Holder = Free | ByMain | ByWorker(i: nat)

  datatype State = State(
    workers: seq<Worker>, main: Main, lock: Holder, boss: Holder,
    queue: seq<Job>, running: bool, hp: real,
    // history: jobs sent and taken in order, what became of them, boss defeats and surplus damage
    sent: seq<Job>, taken: seq<Job>, applied: seq<Job>, missed: seq<Job>, defeats: nat, overkill: real)

  // One step of one thread. A signal wakes a set of waiters, at least one if there is any.
  datatype Step =
    | Lock(i: nat) | Test(i: nat) | Park(i: nat) | Leave(i: nat) | Unlock(i: nat)
    | TimedLock(i: nat) | TimeOut(i: nat) | Hit(i: nat)
    | Spurious(i: nat) | SpuriousMain
    | Offer(damage: real) | Stop
    | MainLock | Measure(woken: set<nat>) | MainUnlock | Announce | Join

  predicate Holds(w: Worker) {
    w.Testing? || w.Parking? || w.Leaving? || w.Carrying? || w.Exiting?
  }

  predicate MainHolds(m: Main) {
    m.Measuring? || m.Sent? || m.Announcing? || m.Announced?
  }

  ghost predicate Init(s: State) {
    && |s.workers| > 0
    && (forall i :: 0 <= i < |s.workers| ==> s.workers[i] == Entering)
    && s == State(s.workers, Idle, Free, Free, [], true, FULL_HP, [], [], [], [], 0, 0.0)
  }

  predicate AnyWaiting(ws: seq<Worker>) {
    exists i :: 0 <= i < |ws| && ws[i].Waiting?
  }

  // The waiters in the given set move on to take the lock again.
  function Wake(ws: seq<Worker>, woken: set<nat>): (r: seq<Worker>)
    ensures |r| == |ws|
  {
    seq(|ws|, i requires 0 <= i < |ws| => if ws[i].Waiting? && i in woken then Woken else ws[i])
  }

  function WakeAll(ws: seq<Worker>): (r: seq<Worker>)
    ensures |r| == |ws|
  {
    seq(|ws|, i requires 0 <= i < |ws| => if ws[i].Waiting? then Woken else ws[i])
  }

  function RouseMain(m: Main): Main {
    if m.Blocked? then Roused(m.job) else m
  }

  // The boss after a hit: health never shows below zero, and a defeated boss respawns.
  function HpAfter(hp: real, damage: real): real {
    var left := if hp - damage < 0.0 then 0.0 else hp - damage;
    if left <= 0.0 && hp > 0.0 then FULL_HP else left
  }

  predicate Defeats(hp: real, damage: real) {
    hp - damage <= 0.0 && hp > 0.0
  }

  function Set(s: State, i: nat, w: Worker): State
    requires i < |s.workers|
  {
    s.(workers := s.workers[i := w])
  }

  // The step of worker i, or of the environment waking it for no reason.
  ghost predicate WorkerStep(s: State, step: Step, i: nat, t: State)
    requires i < |s.workers|
  {
    var w := s.workers[i];
    match step
    case Lock(_) => (w.Entering? || w.Woken?) && s.lock.Free? && t == Set(s, i, Testing).(lock := ByWorker(i))
    case Test(_) => w.Testing? && t == Set(s, i, if s.queue == [] && s.running then Parking else Leaving)
    case Park(_) => w.Parking? && t == Set(s, i, Waiting).(lock := Free)
    case Leave(_) =>
      && w.Leaving?
      // with an empty queue the answer is null, whether or not the thread noticed the shutdown
      && (if s.queue == [] then t == Set(s, i, Exiting)
          else t == Set(s, i, Carrying(s.queue[0])).(queue := s.queue[1..], taken := s.taken + [s.queue[0]],
                                                     main := RouseMain(s.main)))
    case Unlock(_) =>
      || (w.Carrying? && t == Set(s, i, Striking(w.job)).(lock := Free))
      || (w.Exiting? && t == Set(s, i, Done).(lock := Free))
    case TimedLock(_) => w.Striking? && s.boss.Free? && t == Set(s, i, Hitting(w.job)).(boss := ByWorker(i))
    case TimeOut(_) => w.Striking? && t == Set(s, i, Entering).(missed := s.missed + [w.job])
    case Hit(_) =>
      && w.Hitting?
      && t == Set(s, i, Entering).(
           boss := Free, hp := HpAfter(s.hp, w.job.damage), applied := s.applied + [w.job],
           defeats := s.defeats + (if Defeats(s.hp, w.job.damage) then 1 else 0),
           overkill := s.overkill + (if w.job.damage > s.hp then w.job.damage - s.hp else 0.0))
    case Spurious(_) => w.Waiting? && t == Set(s, i, Woken)
    case _ => false
  }

  ghost predicate MainStep(s: State, step: Step, t: State) {
    match step
    case Offer(damage) => s.main.Idle? && damage > 0.0 && t == s.(main := Offering(Job(|s.sent|, damage)))
    case Stop => s.main.Idle? && t == s.(main := Stopping, running := false)
    case MainLock =>
      && s.lock.Free?
      && (if s.main.Offering? || s.main.Roused? then t == s.(main := Measuring(s.main.job), lock := ByMain)
          else s.main.Stopping? && t == s.(main := Announcing, lock := ByMain))
    case Measure(woken) =>
      && s.main.Measuring?
      && (if |s.queue| >= MAX_QUEUE_SIZE then t == s.(main := Blocked(s.main.job), lock := Free)
          else
            && (AnyWaiting(s.workers) ==> exists i :: i in woken && i < |s.workers| && s.workers[i].Waiting?)
            && t == s.(main := Sent, queue := s.queue + [s.main.job], sent := s.sent + [s.main.job],
                       workers := Wake(s.workers, woken)))
    case MainUnlock =>
      || (s.main.Sent? && t == s.(main := Idle, lock := Free))
      || (s.main.Announced? && t == s.(main := Joining, lock := Free))
    case Announce =>
      && s.main.Announcing?
      && t == s.(main := Announced, workers := WakeAll(s.workers))
    case Join =>
      && s.main.Joining? && (forall i :: 0 <= i < |s.workers| ==> s.workers[i].Done?)
      && t == s.(main := Finished)
    case SpuriousMain => s.main.Blocked? && t == s.(main := Roused(s.main.job))
    case _ => false
  }

  predicate IsWorkerStep(step: Step) {
    step.Lock? || step.Test? || step.Park? || step.Leave? || step.Unlock?
    || step.TimedLock? || step.TimeOut? || step.Hit? || step.Spurious?
  }

  ghost predicate Next(s: State, step: Step, t: State) {
    if IsWorkerStep(step) then step.i < |s.workers| && WorkerStep(s, step, step.i, t) else MainStep(s, step, t)
  }

  // ----- the linked list behind the queue -----

  // Queueing a job on the list is what a step that queues it does to the queue.
  method Enqueue(list: List, job: Job, ghost s: State, ghost woken: set<nat>, ghost t: State)
    requires list.Valid() && list.Jobs() == s.queue
    requires s.main == Measuring(job) && |s.queue| < MAX_QUEUE_SIZE && MainStep(s, Measure(woken), t)
    modifies list, list.spine
    ensures list.Valid() && list.Jobs() == t.queue
  {
    list.Append(job);
  }

  // Taking from the list is what a worker leaving the wait loop does; its answer is what it carries.
  method Dequeue(list: List, ghost s: State, ghost i: nat, ghost t: State) returns (job: Option<Job>)
    requires list.Valid() && list.Jobs() == s.queue && i < |s.workers| && WorkerStep(s, Leave(i), i, t)
    modifies list
    ensures list.Valid() && list.Jobs() == t.queue
    ensures t.workers[i] == match job { case None => Exiting case Some(j) => Carrying(j) }
  {
    job := list.Take();
  }

  // ----- the invariant -----

  ghost function Carried(w: Worker): multiset<Job> {
    if w.Carrying? || w.Striking? || w.Hitting? then multiset{w.job} else multiset{}
  }

  ghost function InFlight(ws: seq<Worker>): multiset<Job> {
    if ws == [] then multiset{} else Carried(ws[0]) + InFlight(ws[1..])
  }

  ghost function Damage(jobs: seq<Job>): real {
    if jobs == [] then 0.0 else Damage(jobs[..|jobs| - 1]) + jobs[|jobs| - 1].damage
  }

  // Mutual exclusion: a thread is inside a critical section exactly when it owns the lock.
  ghost predicate Locking(s: State) {
    && (forall i :: 0 <= i < |s.workers| ==> (Holds(s.workers[i]) <==> s.lock == ByWorker(i)))
    && (forall i :: 0 <= i < |s.workers| ==> (s.workers[i].Hitting? <==> s.boss == ByWorker(i)))
    && (MainHolds(s.main) <==> s.lock.ByMain?)
    && (s.lock.ByWorker? ==> s.lock.i < |s.workers|)
    && (s.boss.ByWorker? ==> s.boss.i < |s.workers|)
    && !s.boss.ByMain?
  }

  // Awake and able to serve the queue.
  predicate Awake(w: Worker) {
    !w.Waiting? && !w.Parking? && !w.Exiting? && !w.Done?
  }

  // A worker is where the queue allows it: it goes to sleep over an empty queue only, passes the wait
  // loop with a reason, ends after the shutdown, and sleeps on only until the broadcast.
  ghost predicate Placed(w: Worker, s: State) {
    && (w.Parking? ==> s.queue == [])
    && (w.Leaving? ==> s.queue != [] || !s.running)
    && (w.Exiting? || w.Done? ==> s.queue == [] && !s.running)
    && (w.Waiting? || w.Parking? ==> s.running || s.main.Stopping? || s.main.Announcing?)
  }

  predicate Producing(m: Main) {
    m.Idle? || m.Offering? || m.Measuring? || m.Blocked? || m.Roused? || m.Sent?
  }

  // No wake-up is lost.
  ghost predicate Waking(s: State) {
    && |s.workers| > 0
    && (s.running <==> Producing(s.main))
    && |s.queue| <= MAX_QUEUE_SIZE
    && (s.main.Blocked? ==> |s.queue| == MAX_QUEUE_SIZE)
    && (s.queue != [] ==> exists i :: 0 <= i < |s.workers| && Awake(s.workers[i]))
    && (forall i :: 0 <= i < |s.workers| ==> Placed(s.workers[i], s))
    && (s.main.Finished? ==> forall i :: 0 <= i < |s.workers| ==> s.workers[i].Done?)
  }

  // Jobs are numbered as they are sent and leave the queue in that order.
  ghost predicate Ordering(s: State) {
    && s.taken + s.queue == s.sent
    && (forall k :: 0 <= k < |s.sent| ==> s.sent[k].id == k && s.sent[k].damage > 0.0)
    && (s.main.Offering? || s.main.Measuring? || s.main.Blocked? || s.main.Roused? ==>
          s.main.job.id == |s.sent| && s.main.job.damage > 0.0)
  }

  // Every job taken is in exactly one place: applied, missed, or with one worker.
  ghost predicate Placing(s: State) {
    multiset(s.taken) == multiset(s.applied) + multiset(s.missed) + InFlight(s.workers)
  }

  // All damage that landed is visible in the boss.
  ghost predicate Combat(s: State) {
    && 0.0 < s.hp <= FULL_HP
    && 0.0 <= s.overkill
    && Damage(s.applied) == FULL_HP * (s.defeats as real) + (FULL_HP - s.hp) + s.overkill
  }

  ghost predicate Inv(s: State) {
    Locking(s) && Waking(s) && Ordering(s) && Placing(s) && Combat(s)
  }

  lemma InitHolds(s: State)
    requires Init(s)
    ensures Inv(s)
  {
    NothingInFlight(s.workers);
  }

  lemma {:induction false} NothingInFlight(ws: seq<Worker>)
    requires forall i :: 0 <= i < |ws| ==> Carried(ws[i]) == multiset{}
    ensures InFlight(ws) == multiset{}
  {
    if ws != [] {
      NothingInFlight(ws[1..]);
    }
  }

  lemma {:induction false} InFlightConcat(ws: seq<Worker>, vs: seq<Worker>)
    ensures InFlight(ws + vs) == InFlight(ws) + InFlight(vs)
  {
    if ws == [] {
      assert ws + vs == vs;
    } else {
      assert (ws + vs)[1..] == ws[1..] + vs;
      InFlightConcat(ws[1..], vs);
    }
  }

  // The jobs carried by the workers other than i.
  ghost function Others(ws: seq<Worker>, i: nat): multiset<Job>
    requires i < |ws|
  {
    InFlight(ws[..i]) + InFlight(ws[i + 1..])
  }

  lemma OneInFlight(w: Worker)
    ensures InFlight([w]) == Carried(w)
  {
    assert [w][1..] == [];
  }

  lemma ThreeParts(ws: seq<Worker>, i: nat)
    requires i < |ws|
    ensures ws == ws[..i] + ([ws[i]] + ws[i + 1..])
  {
  }

  lemma InFlightSplit(ws: seq<Worker>, i: nat)
    requires i < |ws|
    ensures InFlight(ws) == Others(ws, i) + Carried(ws[i])
  {
    hide InFlight, Carried;
    ThreeParts(ws, i);
    InFlightConcat(ws[..i], [ws[i]] + ws[i + 1..]);
    InFlightConcat([ws[i]], ws[i + 1..]);
    OneInFlight(ws[i]);
  }

  lemma InFlightUpdate(ws: seq<Worker>, i: nat, w: Worker)
    requires i < |ws|
    ensures InFlight(ws) == Others(ws, i) + Carried(ws[i])
    ensures InFlight(ws[i := w]) == Others(ws, i) + Carried(w)
  {
    InFlightSplit(ws, i);
    InFlightSplit(ws[i := w], i);
    assert ws[i := w][..i] == ws[..i] && ws[i := w][i + 1..] == ws[i + 1..];
  }

  lemma {:induction false} InFlightSame(ws: seq<Worker>, vs: seq<Worker>)
    requires |ws| == |vs| && forall i :: 0 <= i < |ws| ==> Carried(ws[i]) == Carried(vs[i])
    ensures InFlight(ws) == InFlight(vs)
  {
    if ws != [] {
      InFlightSame(ws[1..], vs[1..]);
    }
  }

  // A worker owns a lock exactly while it is inside; it can only enter a free section.
  lemma LocksFollowTheWorker(s: State, step: Step, i: nat, t: State)
    requires i < |s.workers| && WorkerStep(s, step, i, t)
    ensures |t.workers| == |s.workers| && forall j :: 0 <= j < |s.workers| && j != i ==> t.workers[j] == s.workers[j]
    ensures MainHolds(t.main) <==> MainHolds(s.main)
  {
  }

  lemma QueueLockFollows(s: State, step: Step, i: nat, t: State)
    requires i < |s.workers| && i < |t.workers| && WorkerStep(s, step, i, t)
    requires Holds(s.workers[i]) ==> s.lock == ByWorker(i)
    ensures t.lock == if Holds(t.workers[i]) then ByWorker(i) else if Holds(s.workers[i]) then Free else s.lock
    ensures Holds(t.workers[i]) && !Holds(s.workers[i]) ==> s.lock.Free?
  {
  }

  lemma BossLockFollows(s: State, step: Step, i: nat, t: State)
    requires i < |s.workers| && i < |t.workers| && WorkerStep(s, step, i, t)
    requires s.workers[i].Hitting? ==> s.boss == ByWorker(i)
    ensures t.boss == if t.workers[i].Hitting? then ByWorker(i) else if s.workers[i].Hitting? then Free else s.boss
    ensures t.workers[i].Hitting? && !s.workers[i].Hitting? ==> s.boss.Free?
  {
  }

  lemma WorkerKeepsLocking(s: State, step: Step, i: nat, t: State)
    requires Locking(s) && i < |s.workers| && WorkerStep(s, step, i, t)
    ensures Locking(t)
  {
    hide WorkerStep, Holds, MainHolds;
    LocksFollowTheWorker(s, step, i, t);
    QueueLockFollows(s, step, i, t);
    BossLockFollows(s, step, i, t);
  }

  lemma WakingTakesNoLock(ws: seq<Worker>, woken: set<nat>, j: nat)
    requires j < |ws|
    ensures Holds(Wake(ws, woken)[j]) == Holds(WakeAll(ws)[j]) == Holds(ws[j])
    ensures Wake(ws, woken)[j].Hitting? == WakeAll(ws)[j].Hitting? == ws[j].Hitting?
  {
  }

  lemma MainTakesNoWorkersLock(s: State, step: Step, t: State)
    requires MainStep(s, step, t)
    ensures |t.workers| == |s.workers| && t.boss == s.boss
    ensures forall j :: 0 <= j < |s.workers| ==> Holds(t.workers[j]) == Holds(s.workers[j])
    ensures forall j :: 0 <= j < |s.workers| ==> t.workers[j].Hitting? == s.workers[j].Hitting?
  {
    hide Holds, Wake, WakeAll;
    forall j: nat | j < |s.workers|
      ensures Holds(t.workers[j]) == Holds(s.workers[j]) && t.workers[j].Hitting? == s.workers[j].Hitting?
    {
      WakingTakesNoLock(s.workers, if step.Measure? then step.woken else {}, j);
    }
  }

  lemma MainLockFollows(s: State, step: Step, t: State)
    requires MainStep(s, step, t) && (MainHolds(s.main) ==> s.lock.ByMain?)
    ensures t.lock == if MainHolds(t.main) then ByMain else if MainHolds(s.main) then Free else s.lock
    ensures MainHolds(t.main) && !MainHolds(s.main) ==> s.lock.Free?
  {
    hide Wake, WakeAll;
  }

  lemma MainKeepsLocking(s: State, step: Step, t: State)
    requires Locking(s) && MainStep(s, step, t)
    ensures Locking(t)
  {
    hide MainStep, Holds, MainHolds;
    MainTakesNoWorkersLock(s, step, t);
    MainLockFollows(s, step, t);
  }

  lemma SomeoneStaysAwake(s: State, step: Step, i: nat, t: State)
    requires Waking(s) && i < |s.workers| && WorkerStep(s, step, i, t)
    ensures t.queue != [] ==> exists k :: 0 <= k < |t.workers| && Awake(t.workers[k])
  {
    if t.queue != [] {
      var k :| 0 <= k < |s.workers| && Awake(s.workers[k]);
      assert Awake(t.workers[k]);
    }
  }

  // Only a worker past the wait loop takes from the queue; nobody else clears `running`.
  lemma QueueFollows(s: State, step: Step, i: nat, t: State)
    requires i < |s.workers| && WorkerStep(s, step, i, t)
    ensures t.running == s.running
    ensures t.queue == s.queue || (Holds(s.workers[i]) && s.queue != [] && t.queue == s.queue[1..] && !t.main.Blocked?)
    ensures t.main == s.main || t.main == RouseMain(s.main)
  {
  }

  lemma RousingKeeps(m: Main)
    ensures var r := RouseMain(m);
      && (Producing(r) <==> Producing(m)) && (r.Stopping? <==> m.Stopping?)
      && (r.Announcing? <==> m.Announcing?) && (r.Finished? <==> m.Finished?) && !r.Blocked?
  {
  }

  lemma StepperStaysPlaced(s: State, step: Step, i: nat, t: State)
    requires i < |s.workers| && i < |t.workers| && WorkerStep(s, step, i, t)
    requires Placed(s.workers[i], s) && (s.running <==> Producing(s.main))
    ensures Placed(t.workers[i], t)
    ensures s.workers[i].Done? ==> t.workers[i].Done?
  {
  }

  lemma BystanderStaysPlaced(s: State, w: Worker, t: State)
    requires Placed(w, s) && t.running == s.running
    requires t.queue == s.queue || (!Holds(w) && s.queue != [])
    requires t.main.Stopping? == s.main.Stopping? && t.main.Announcing? == s.main.Announcing?
    ensures Placed(w, t)
  {
  }

  lemma WorkerKeepsWaking(s: State, step: Step, i: nat, t: State)
    requires Locking(s) && Waking(s) && i < |s.workers| && WorkerStep(s, step, i, t)
    ensures Waking(t)
  {
    hide WorkerStep, Awake, Holds, Placed, Producing, RouseMain, MainHolds;
    SomeoneStaysAwake(s, step, i, t);
    LocksFollowTheWorker(s, step, i, t);
    QueueFollows(s, step, i, t);
    RousingKeeps(s.main);
    StepperStaysPlaced(s, step, i, t);
    forall j | 0 <= j < |t.workers|
      ensures Placed(t.workers[j], t)
    {
      if j != i {
        BystanderStaysPlaced(s, s.workers[j], t);
      }
    }
  }

  // Queueing a job leaves someone awake: a signalled waiter, or else a worker that never waited.
  lemma SignalWakes(s: State, woken: set<nat>, t: State)
    requires Locking(s) && Waking(s) && MainStep(s, Measure(woken), t) && t.main.Sent?
    ensures exists i :: 0 <= i < |t.workers| && Awake(t.workers[i])
  {
    if AnyWaiting(s.workers) {
      var i :| i in woken && i < |s.workers| && s.workers[i].Waiting?;
      assert Awake(t.workers[i]);
    } else {
      assert !s.workers[0].Waiting? && !Holds(s.workers[0]);
      assert Awake(t.workers[0]);
    }
  }

  lemma WakingKeepsAwake(ws: seq<Worker>, woken: set<nat>, j: nat)
    requires j < |ws| && Awake(ws[j])
    ensures Awake(Wake(ws, woken)[j]) && Awake(WakeAll(ws)[j])
  {
  }

  lemma MainLeavesSomeoneAwake(s: State, step: Step, t: State)
    requires Locking(s) && Waking(s) && MainStep(s, step, t)
    ensures t.queue != [] ==> exists i :: 0 <= i < |t.workers| && Awake(t.workers[i])
  {
    hide Wake, WakeAll, Locking, Awake;
    if step.Measure? && t.main.Sent? {
      SignalWakes(s, step.woken, t);
    } else if t.queue != [] {
      var k :| 0 <= k < |s.workers| && Awake(s.workers[k]);
      WakingKeepsAwake(s.workers, {}, k);
      assert Awake(t.workers[k]);
    }
  }

  lemma MainKeepsPlaced(s: State, step: Step, t: State, j: nat)
    requires MainStep(s, step, t) && j < |s.workers| && j < |t.workers|
    requires Placed(s.workers[j], s) && (s.running <==> Producing(s.main))
    requires Holds(s.workers[j]) ==> !MainHolds(s.main)
    ensures Placed(t.workers[j], t)
    ensures s.workers[j].Done? ==> t.workers[j].Done?
  {
  }

  lemma MainChangesTheQueue(s: State, step: Step, t: State)
    requires MainStep(s, step, t) && |s.queue| <= MAX_QUEUE_SIZE && (s.running <==> Producing(s.main))
    requires s.main.Blocked? ==> |s.queue| == MAX_QUEUE_SIZE
    ensures |t.queue| <= MAX_QUEUE_SIZE && (t.main.Blocked? ==> |t.queue| == MAX_QUEUE_SIZE)
    ensures t.running <==> Producing(t.main)
    ensures t.main.Finished? ==> forall i :: 0 <= i < |s.workers| ==> s.workers[i].Done?
  {
    hide Wake, WakeAll;
  }

  lemma MainKeepsWaking(s: State, step: Step, t: State)
    requires Locking(s) && Waking(s) && MainStep(s, step, t)
    ensures Waking(t)
  {
    hide MainStep, Awake, Holds, MainHolds, Placed, Producing;
    MainLeavesSomeoneAwake(s, step, t);
    MainTakesNoWorkersLock(s, step, t);
    MainChangesTheQueue(s, step, t);
    forall j: nat | j < |t.workers|
      ensures Placed(t.workers[j], t) && (s.workers[j].Done? ==> t.workers[j].Done?)
    {
      MainKeepsPlaced(s, step, t, j);
    }
  }

  lemma WorkerKeepsOrdering(s: State, step: Step, i: nat, t: State)
    requires Ordering(s) && i < |s.workers| && WorkerStep(s, step, i, t)
    ensures Ordering(t)
  {
    if step.Leave? && s.queue != [] {
      assert s.taken + s.queue == (s.taken + [s.queue[0]]) + s.queue[1..];
    }
  }

  lemma MainKeepsOrdering(s: State, step: Step, t: State)
    requires Ordering(s) && MainStep(s, step, t)
    ensures Ordering(t)
  {
    if step.Measure? && t.main.Sent? {
      assert s.taken + (s.queue + [s.main.job]) == (s.taken + s.queue) + [s.main.job];
    }
  }

  lemma StepChangesOneWorker(s: State, step: Step, i: nat, t: State)
    requires i < |s.workers| && WorkerStep(s, step, i, t)
    ensures t.workers == s.workers[i := t.workers[i]]
    ensures !step.Leave? ==> t.taken == s.taken
    ensures !step.TimeOut? ==> t.missed == s.missed
    ensures !step.Hit? ==> t.applied == s.applied
  {
  }

  lemma OtherStepsKeepTheJob(s: State, step: Step, i: nat, t: State)
    requires i < |s.workers| && i < |t.workers| && WorkerStep(s, step, i, t)
    ensures !step.Leave? && !step.TimeOut? && !step.Hit? ==> Carried(t.workers[i]) == Carried(s.workers[i])
  {
  }

  lemma LeaveTakesTheFirst(s: State, step: Step, i: nat, t: State)
    requires i < |s.workers| && i < |t.workers| && step.Leave? && WorkerStep(s, step, i, t)
    ensures multiset(t.taken) + Carried(s.workers[i]) == multiset(s.taken) + Carried(t.workers[i])
  {
    assert s.queue != [] ==> multiset(t.taken) == multiset(s.taken) + multiset{s.queue[0]};
  }

  lemma TimeOutMisses(s: State, step: Step, i: nat, t: State)
    requires i < |s.workers| && i < |t.workers| && step.TimeOut? && WorkerStep(s, step, i, t)
    ensures multiset(t.missed) + Carried(t.workers[i]) == multiset(s.missed) + Carried(s.workers[i])
  {
    assert multiset(t.missed) == multiset(s.missed) + multiset{s.workers[i].job};
  }

  lemma HitApplies(s: State, step: Step, i: nat, t: State)
    requires i < |s.workers| && i < |t.workers| && step.Hit? && WorkerStep(s, step, i, t)
    ensures multiset(t.applied) + Carried(t.workers[i]) == multiset(s.applied) + Carried(s.workers[i])
  {
    assert multiset(t.applied) == multiset(s.applied) + multiset{s.workers[i].job};
  }

  lemma MovedBeside(x: multiset<Job>, c: multiset<Job>, c': multiset<Job>, k: multiset<Job>, k': multiset<Job>)
    requires k' + c == k + c'
    ensures x + c' + k == x + c + k'
  {
    forall job ensures (x + c' + k)[job] == (x + c + k')[job] {
      assert (k' + c)[job] == (k + c')[job];
    }
  }

  lemma SettledBeside(x: multiset<Job>, y: multiset<Job>, y': multiset<Job>, c: multiset<Job>, c': multiset<Job>, k: multiset<Job>)
    requires y' + c' == y + c
    ensures x + y' + c' + k == x + y + c + k
    ensures y' + x + c' + k == y + x + c + k
  {
    forall job ensures (x + y' + c' + k)[job] == (x + y + c + k)[job] {
      assert (y' + c')[job] == (y + c)[job];
    }
    assert y' + x == x + y' && y + x == x + y;
  }

  // A worker's step moves at most the job it carries.
  lemma Moves(s: State, step: Step, i: nat, t: State)
    requires i < |s.workers| && WorkerStep(s, step, i, t)
    ensures t.workers == s.workers[i := t.workers[i]]
    ensures multiset(t.applied) + multiset(t.missed) + Carried(t.workers[i]) + multiset(s.taken)
         == multiset(s.applied) + multiset(s.missed) + Carried(s.workers[i]) + multiset(t.taken)
  {
    hide WorkerStep, Carried;
    StepChangesOneWorker(s, step, i, t);
    OtherStepsKeepTheJob(s, step, i, t);
    var c, c', k := Carried(s.workers[i]), Carried(t.workers[i]), multiset(s.taken);
    if step.Leave? {
      LeaveTakesTheFirst(s, step, i, t);
      MovedBeside(multiset(s.applied) + multiset(s.missed), c, c', k, multiset(t.taken));
    } else if step.TimeOut? {
      TimeOutMisses(s, step, i, t);
      SettledBeside(multiset(s.applied), multiset(s.missed), multiset(t.missed), c, c', k);
    } else if step.Hit? {
      HitApplies(s, step, i, t);
      SettledBeside(multiset(s.missed), multiset(s.applied), multiset(t.applied), c, c', k);
    }
  }

  lemma WorkerKeepsPlacing(s: State, step: Step, i: nat, t: State)
    requires Placing(s) && i < |s.workers| && WorkerStep(s, step, i, t)
    ensures Placing(t)
  {
    Moves(s, step, i, t);
    InFlightUpdate(s.workers, i, t.workers[i]);
    Rebalance(multiset(s.taken), multiset(s.applied) + multiset(s.missed), Carried(s.workers[i]),
              multiset(t.taken), multiset(t.applied) + multiset(t.missed), Carried(t.workers[i]), Others(s.workers, i));
  }

  lemma Rebalance(taken: multiset<Job>, settled: multiset<Job>, carried: multiset<Job>,
                  taken': multiset<Job>, settled': multiset<Job>, carried': multiset<Job>, others: multiset<Job>)
    requires settled' + carried' + taken == settled + carried + taken'
    requires taken == settled + (others + carried)
    ensures taken' == settled' + (others + carried')
  {
    forall job ensures taken'[job] == (settled' + (others + carried'))[job] {
      assert (settled' + carried' + taken)[job] == (settled + carried + taken')[job];
    }
  }

  lemma WakingKeepsJobs(ws: seq<Worker>, woken: set<nat>)
    ensures InFlight(Wake(ws, woken)) == InFlight(ws) && InFlight(WakeAll(ws)) == InFlight(ws)
  {
    InFlightSame(ws, Wake(ws, woken));
    InFlightSame(ws, WakeAll(ws));
  }

  lemma MainMovesNoJob(s: State, step: Step, t: State)
    requires MainStep(s, step, t)
    ensures t.taken == s.taken && t.applied == s.applied && t.missed == s.missed
    ensures InFlight(t.workers) == InFlight(s.workers)
  {
    hide InFlight, Wake, WakeAll;
    match step {
      case Measure(woken) => WakingKeepsJobs(s.workers, woken);
      case Announce => WakingKeepsJobs(s.workers, {});
      case _ =>
    }
  }

  lemma MainKeepsPlacing(s: State, step: Step, t: State)
    requires Placing(s) && MainStep(s, step, t)
    ensures Placing(t)
  {
    hide InFlight, MainStep;
    MainMovesNoJob(s, step, t);
  }

  lemma CarriedWasSent(s: State, i: nat)
    requires Ordering(s) && Placing(s) && i < |s.workers| && s.workers[i].Hitting?
    ensures s.workers[i].job.damage > 0.0
  {
    InFlightSplit(s.workers, i);
    var job := s.workers[i].job;
    assert job in multiset(s.taken);
    assert job in s.sent;
  }

  lemma HitKeepsCombat(s: State, i: nat, t: State)
    requires Ordering(s) && Placing(s) && Combat(s) && i < |s.workers| && WorkerStep(s, Hit(i), i, t)
    ensures Combat(t)
  {
    CarriedWasSent(s, i);
    var job := s.workers[i].job;
    assert (s.applied + [job])[..|s.applied|] == s.applied;
  }

  lemma WorkerKeepsCombat(s: State, step: Step, i: nat, t: State)
    requires Ordering(s) && Placing(s) && Combat(s) && i < |s.workers| && WorkerStep(s, step, i, t)
    ensures Combat(t)
  {
    if step.Hit? {
      HitKeepsCombat(s, i, t);
    }
  }

  lemma MainKeepsCombat(s: State, step: Step, t: State)
    requires Combat(s) && MainStep(s, step, t)
    ensures Combat(t)
  {
  }

  // Every step of every thread, spurious wake-ups included, keeps the invariant.
  lemma NextKeepsInv(s: State, step: Step, t: State)
    requires Inv(s) && Next(s, step, t)
    ensures Inv(t)
  {
    hide WorkerStep, MainStep, Locking, Waking, Ordering, Placing, Combat;
    if IsWorkerStep(step) {
      WorkerKeepsLocking(s, step, step.i, t);
      WorkerKeepsWaking(s, step, step.i, t);
      WorkerKeepsOrdering(s, step, step.i, t);
      WorkerKeepsPlacing(s, step, step.i, t);
      WorkerKeepsCombat(s, step, step.i, t);
    } else {
      MainKeepsLocking(s, step, t);
      MainKeepsWaking(s, step, t);
      MainKeepsOrdering(s, step, t);
      MainKeepsPlacing(s, step, t);
      MainKeepsCombat(s, step, t);
    }
  }

  // ----- whole runs -----

  ghost predicate Stepped(s: State, t: State) {
    exists step :: Next(s, step, t)
  }

  ghost predicate Run(states: seq<State>): (b: bool)
    ensures b ==> states != []
  {
    states != [] && forall k :: 0 <= k < |states| - 1 ==> Stepped(states[k], states[k + 1])
  }

  lemma {:induction false} RunKeepsInv(states: seq<State>)
    requires Run(states) && Init(states[0])
    ensures forall k :: 0 <= k < |states| ==> Inv(states[k])
  {
    hide Next, Inv, Init;
    var n := |states| - 1;
    if n == 0 {
      InitHolds(states[0]);
    } else {
      assert Run(states[..n]) by {
        forall k | 0 <= k < n - 1 ensures Stepped(states[..n][k], states[..n][k + 1]) {
          assert Stepped(states[k], states[k + 1]);
        }
      }
      RunKeepsInv(states[..n]);
      assert Stepped(states[n - 1], states[n]);
      var step :| Next(states[n - 1], step, states[n]);
      assert states[..n][n - 1] == states[n - 1];
      NextKeepsInv(states[n - 1], step, states[n]);
      forall k | 0 <= k < |states| ensures Inv(states[k]) {
        assert k < n ==> states[..n][k] == states[k];
      }
    }
  }

  // The safety promises, in every state of every run: a waiting worker is never the last hope of a
  // queued job, a waiting producer faces a full queue, the boss is alive, and the books balance.
  lemma SafeInEveryRun(states: seq<State>, k: nat)
    requires Run(states) && Init(states[0]) && k < |states|
    ensures var s := states[k];
            && |s.queue| <= MAX_QUEUE_SIZE
            && (s.queue != [] ==> exists i :: 0 <= i < |s.workers| && !s.workers[i].Waiting? && !s.workers[i].Done?)
            && (s.main.Blocked? ==> |s.queue| == MAX_QUEUE_SIZE)
            && s.taken + s.queue == s.sent
            && 0.0 < s.hp <= FULL_HP
            && Damage(s.applied) == FULL_HP * (s.defeats as real) + (FULL_HP - s.hp) + s.overkill
            && (s.main.Finished? ==>
                  && (forall i :: 0 <= i < |s.workers| ==> s.workers[i].Done?)
                  && s.queue == [] && s.taken == s.sent
                  && multiset(s.sent) == multiset(s.applied) + multiset(s.missed))
  {
    RunKeepsInv(states);
    var s := states[k];
    assert Inv(s);
    if s.queue != [] {
      var i :| 0 <= i < |s.workers| && Awake(s.workers[i]);
    }
    if s.main.Finished? {
      assert s.workers[0].Done?;
      NothingInFlight(s.workers);
      assert s.taken + [] == s.taken;
    }
  }

  // ----- progress -----

  // Steps a thread takes by itself: no new input, no unprovoked wake-up.
  predicate Internal(step: Step) {
    !step.Offer? && !step.Stop? && !step.Spurious? && !step.SpuriousMain?
  }

  // Nothing left to do: the program has ended, or it awaits input with an empty queue and every
  // worker waiting for work.
  ghost predicate AtRest(s: State) {
    || s.main.Finished?
    || (s.main.Idle? && s.queue == [] && forall i :: 0 <= i < |s.workers| ==> s.workers[i].Waiting?)
  }

  ghost predicate CanStep(s: State) {
    exists step, t :: Internal(step) && Next(s, step, t)
  }

  lemma Enabled(s: State, step: Step, t: State)
    requires Internal(step) && Next(s, step, t)
    ensures CanStep(s)
  {
  }

  lemma FreeWorkerCanStep(s: State, i: nat)
    requires Locking(s) && i < |s.workers| && s.lock.Free?
    requires !s.workers[i].Waiting? && !s.workers[i].Done?
    ensures CanStep(s)
  {
    var w := s.workers[i];
    assert !Holds(w);
    if w.Entering? || w.Woken? {
      Enabled(s, Lock(i), Set(s, i, Testing).(lock := ByWorker(i)));
    } else if w.Striking? {
      Enabled(s, TimeOut(i), Set(s, i, Entering).(missed := s.missed + [w.job]));
    } else {
      Enabled(s, Hit(i), Set(s, i, Entering).(
           boss := Free, hp := HpAfter(s.hp, w.job.damage), applied := s.applied + [w.job],
           defeats := s.defeats + (if Defeats(s.hp, w.job.damage) then 1 else 0),
           overkill := s.overkill + (if w.job.damage > s.hp then w.job.damage - s.hp else 0.0)));
    }
  }

  lemma OwnerCanStep(s: State, i: nat)
    requires Locking(s) && i < |s.workers| && s.lock == ByWorker(i)
    ensures CanStep(s)
  {
    var w := s.workers[i];
    if w.Testing? {
      Enabled(s, Test(i), Set(s, i, if s.queue == [] && s.running then Parking else Leaving));
    } else if w.Parking? {
      Enabled(s, Park(i), Set(s, i, Waiting).(lock := Free));
    } else if w.Leaving? {
      Enabled(s, Leave(i),
              if s.queue == [] then Set(s, i, Exiting)
              else Set(s, i, Carrying(s.queue[0])).(queue := s.queue[1..], taken := s.taken + [s.queue[0]],
                                                    main := RouseMain(s.main)));
    } else if w.Carrying? {
      Enabled(s, Unlock(i), Set(s, i, Striking(w.job)).(lock := Free));
    } else {
      Enabled(s, Unlock(i), Set(s, i, Done).(lock := Free));
    }
  }

  lemma MainCanStep(s: State)
    requires Locking(s)
    requires s.lock.ByMain? || (s.lock.Free? && (s.main.Offering? || s.main.Roused? || s.main.Stopping?))
    ensures CanStep(s)
  {
    var m := s.main;
    if m.Offering? || m.Roused? {
      Enabled(s, MainLock, s.(main := Measuring(m.job), lock := ByMain));
    } else if m.Stopping? {
      Enabled(s, MainLock, s.(main := Announcing, lock := ByMain));
    } else if m.Measuring? {
      var woken := set i | 0 <= i < |s.workers| && s.workers[i].Waiting?;
      Enabled(s, Measure(woken),
              if |s.queue| >= MAX_QUEUE_SIZE then s.(main := Blocked(m.job), lock := Free)
              else s.(main := Sent, queue := s.queue + [m.job], sent := s.sent + [m.job],
                      workers := Wake(s.workers, woken)));
    } else if m.Sent? {
      Enabled(s, MainUnlock, s.(main := Idle, lock := Free));
    } else if m.Announcing? {
      Enabled(s, Announce, s.(main := Announced, workers := WakeAll(s.workers)));
    } else {
      Enabled(s, MainUnlock, s.(main := Joining, lock := Free));
    }
  }

  // No reachable state is stuck: unless everything is at rest, some thread has a step of its own.
  lemma NoDeadlock(s: State)
    requires Inv(s)
    ensures AtRest(s) || CanStep(s)
  {
    if s.lock.ByWorker? {
      OwnerCanStep(s, s.lock.i);
    } else if s.lock.ByMain? || s.main.Offering? || s.main.Roused? || s.main.Stopping? {
      MainCanStep(s);
    } else if s.queue != [] {
      var i :| 0 <= i < |s.workers| && Awake(s.workers[i]);
      FreeWorkerCanStep(s, i);
    } else if exists i :: 0 <= i < |s.workers| && !s.workers[i].Waiting? && !s.workers[i].Done? {
      var i :| 0 <= i < |s.workers| && !s.workers[i].Waiting? && !s.workers[i].Done?;
      FreeWorkerCanStep(s, i);
    } else if s.main.Joining? {
      Enabled(s, Join, s.(main := Finished));
    }
  }

  // ----- every job is handled: work left over shrinks with every step -----

  ghost function Rank(w: Worker, running: bool): nat {
    match w
    case Done => 0
    case Exiting => 1
    case Leaving => 2
    case Waiting => if running then 2 else 6
    case Parking => if running then 3 else 7
    case Testing => 4
    case Entering => 5
    case Woken => 5
    case Hitting(_) => 6
    case Striking(_) => 7
    case Carrying(_) => 8
  }

  ghost function Ranks(ws: seq<Worker>, running: bool): nat {
    if ws == [] then 0 else Rank(ws[0], running) + Ranks(ws[1..], running)
  }

  // Queueing one job costs at most this much: the job itself and the waiters its signal wakes.
  ghost function MainRank(m: Main, workers: nat): nat {
    match m
    case Offering(_) => 13 + 3 * workers
    case Roused(_) => 13 + 3 * workers
    case Measuring(_) => 12 + 3 * workers
    case Blocked(_) => 11 + 3 * workers
    case Sent => 1
    case Idle => 0
    case Stopping => 4
    case Announcing => 3
    case Announced => 2
    case Joining => 1
    case Finished => 0
  }

  ghost function Work(s: State): nat {
    9 * |s.queue| + Ranks(s.workers, s.running) + MainRank(s.main, |s.workers|)
  }

  lemma {:induction false} RanksUpdate(ws: seq<Worker>, running: bool, i: nat, w: Worker)
    requires i < |ws|
    ensures Ranks(ws[i := w], running) == Ranks(ws, running) - Rank(ws[i], running) + Rank(w, running)
  {
    if i == 0 {
      assert ws[0 := w][1..] == ws[1..];
    } else {
      assert ws[i := w][1..] == ws[1..][i - 1 := w];
      RanksUpdate(ws[1..], running, i - 1, w);
    }
  }

  lemma {:induction false} WakeRanks(ws: seq<Worker>, running: bool, woken: set<nat>)
    ensures Ranks(Wake(ws, woken), running) <= Ranks(ws, running) + 3 * |ws|
    ensures !running ==> Ranks(WakeAll(ws), running) <= Ranks(ws, running)
  {
    if ws != [] {
      var less := set i | i in woken && i > 0 :: (i - 1) as nat;
      assert Wake(ws, woken)[1..] == Wake(ws[1..], less);
      assert WakeAll(ws)[1..] == WakeAll(ws[1..]);
      WakeRanks(ws[1..], running, less);
    }
  }

  lemma WorkerStepShrinksRanks(s: State, step: Step, i: nat, t: State)
    requires i < |s.workers| && i < |t.workers| && WorkerStep(s, step, i, t)
    requires Internal(step) || !s.running
    requires s.main.Blocked? ==> s.running
    ensures t.running == s.running
    ensures 9 * |t.queue| + Rank(t.workers[i], s.running) + MainRank(t.main, |s.workers|)
          < 9 * |s.queue| + Rank(s.workers[i], s.running) + MainRank(s.main, |s.workers|)
  {
  }

  lemma WorkerStepShrinksWork(s: State, step: Step, i: nat, t: State)
    requires i < |s.workers| && WorkerStep(s, step, i, t)
    requires Internal(step) || !s.running
    requires s.main.Blocked? ==> s.running
    ensures Work(t) < Work(s)
  {
    hide WorkerStep, Rank, MainRank, Internal;
    StepChangesOneWorker(s, step, i, t);
    WorkerStepShrinksRanks(s, step, i, t);
    RanksUpdate(s.workers, s.running, i, t.workers[i]);
  }

  lemma MainStepShrinksWork(s: State, step: Step, t: State)
    requires Waking(s) && MainStep(s, step, t)
    requires Internal(step) || !s.running
    ensures Work(t) < Work(s)
  {
    WakeRanks(s.workers, s.running, if step.Measure? then step.woken else {});
  }

  // Between two inputs the threads can only take Work(s) steps of their own; once the shutdown has
  // begun this bounds every step, spurious wake-ups included.
  lemma StepsAreBounded(s: State, step: Step, t: State)
    requires Inv(s) && Next(s, step, t)
    requires Internal(step) || !s.running
    ensures Work(t) < Work(s)
  {
    if IsWorkerStep(step) {
      WorkerStepShrinksWork(s, step, step.i, t);
    } else {
      MainStepShrinksWork(s, step, t);
    }
  }

  lemma StopsForGood(s: State, step: Step, t: State)
    requires Inv(s) && Next(s, step, t) && !s.running
    ensures !t.running
  {
    if IsWorkerStep(step) {
    } else {
      assert t.running == s.running;
    }
  }

  // Shutdown always completes: from the moment running is cleared no run is longer than the work
  // then left, and a run that cannot be continued has ended the program with all workers joined,
  // the queue drained and every job applied or missed.
  lemma {:induction false} ShutdownCompletes(states: seq<State>)
    requires Run(states) && Inv(states[0]) && !states[0].running
    ensures |states| - 1 <= Work(states[0])
    ensures var last := states[|states| - 1];
            Inv(last) && !last.running && (CanStep(last) || last.main.Finished?)
    decreases |states|
  {
    hide Next, Inv, Work, Internal;
    if |states| == 1 {
      NoDeadlock(states[0]);
      RestingMeansFinished(states[0]);
    } else {
      assert Stepped(states[0], states[1]);
      var step :| Next(states[0], step, states[1]);
      NextKeepsInv(states[0], step, states[1]);
      StepsAreBounded(states[0], step, states[1]);
      StopsForGood(states[0], step, states[1]);
      var rest := states[1..];
      assert Run(rest) by {
        forall k | 0 <= k < |rest| - 1 ensures Stepped(rest[k], rest[k + 1]) {
          assert Stepped(states[k + 1], states[k + 2]);
        }
      }
      ShutdownCompletes(rest);
    }
  }

  lemma RestingMeansFinished(s: State)
    requires Inv(s) && !s.running
    ensures AtRest(s) ==> s.main.Finished?
  {
  }

  // ----- a whole game: one worker, one job, and the shutdown -----

  lemma OneStep(s: State, step: Step, t: State)
    requires Next(s, step, t)
    ensures Run([s, t])
  {
    assert Stepped(s, t);
  }

  lemma RunsJoin(first: seq<State>, second: seq<State>) returns (all: seq<State>)
    requires Run(first) && Run(second) && first[|first| - 1] == second[0]
    ensures Run(all) && all[0] == first[0] && all[|all| - 1] == second[|second| - 1]
  {
    hide Stepped;
    all := first + second[1..];
    forall k | 0 <= k < |all| - 1
      ensures Stepped(all[k], all[k + 1])
    {
      if k >= |first| - 1 {
        assert all[k] == second[k + 1 - |first|] && all[k + 1] == second[k + 2 - |first|];
      } else {
        assert all[k] == first[k] && all[k + 1] == first[k + 1];
      }
    }
  }

  lemma FourSteps(a: State, b: State, c: State, d: State, e: State) returns (states: seq<State>)
    requires Run([a, b]) && Run([b, c]) && Run([c, d]) && Run([d, e])
    ensures Run(states) && states[0] == a && states[|states| - 1] == e
  {
    states := RunsJoin([a, b], [b, c]);
    states := RunsJoin(states, [c, d]);
    states := RunsJoin(states, [d, e]);
  }

  lemma AJobCanBeSent(s: State, damage: real) returns (states: seq<State>)
    requires s.main.Idle? && s.lock.Free? && |s.queue| < MAX_QUEUE_SIZE && damage > 0.0 && !AnyWaiting(s.workers)
    ensures
      var job := Job(|s.sent|, damage);
      Run(states) && states[0] == s && states[|states| - 1] == s.(queue := s.queue + [job], sent := s.sent + [job])
  {
    var job := Job(|s.sent|, damage);
    var offering := s.(main := Offering(job));
    var measuring := s.(main := Measuring(job), lock := ByMain);
    var queued := s.(queue := s.queue + [job], sent := s.sent + [job]);
    var sent := queued.(main := Sent, lock := ByMain);
    assert Wake(s.workers, {}) == s.workers;
    OneStep(s, Offer(damage), offering);
    OneStep(offering, MainLock, measuring);
    OneStep(measuring, Measure({}), sent);
    OneStep(sent, MainUnlock, queued);
    hide Run;
    states := FourSteps(s, offering, measuring, sent, queued);
  }

  lemma AJobCanBeTaken(s: State, i: nat) returns (states: seq<State>)
    requires i < |s.workers| && s.workers[i].Entering? && s.lock.Free? && s.queue != [] && s.main.Idle?
    ensures Run(states) && states[0] == s
    ensures states[|states| - 1]
         == Set(s, i, Striking(s.queue[0])).(queue := s.queue[1..], taken := s.taken + [s.queue[0]])
  {
    var job := s.queue[0];
    var testing, leaving := Set(s, i, Testing).(lock := ByWorker(i)), Set(s, i, Leaving).(lock := ByWorker(i));
    var carrying := Set(s, i, Carrying(job)).(lock := ByWorker(i), queue := s.queue[1..], taken := s.taken + [job]);
    var striking := Set(s, i, Striking(job)).(queue := s.queue[1..], taken := s.taken + [job]);
    OneStep(s, Lock(i), testing);
    OneStep(testing, Test(i), leaving);
    OneStep(leaving, Leave(i), carrying);
    OneStep(carrying, Unlock(i), striking);
    hide Run;
    states := FourSteps(s, testing, leaving, carrying, striking);
  }

  // After the hit of worker i.
  function Struck(s: State, i: nat): State
    requires i < |s.workers| && s.workers[i].Striking?
  {
    var job := s.workers[i].job;
    Set(s, i, Entering).(
      hp := HpAfter(s.hp, job.damage), applied := s.applied + [job],
      defeats := s.defeats + (if Defeats(s.hp, job.damage) then 1 else 0),
      overkill := s.overkill + (if job.damage > s.hp then job.damage - s.hp else 0.0))
  }

  lemma AJobCanBeApplied(s: State, i: nat) returns (states: seq<State>)
    requires i < |s.workers| && s.workers[i].Striking? && s.boss.Free?
    ensures Run(states) && states[0] == s && states[|states| - 1] == Struck(s, i)
  {
    var hitting := Set(s, i, Hitting(s.workers[i].job)).(boss := ByWorker(i));
    OneStep(s, TimedLock(i), hitting);
    OneStep(hitting, Hit(i), Struck(s, i));
    hide Run;
    states := RunsJoin([s, hitting], [hitting, Struck(s, i)]);
  }

  lemma TheGameCanBeStopped(s: State) returns (states: seq<State>)
    requires s.main.Idle? && s.lock.Free? && !AnyWaiting(s.workers)
    ensures Run(states) && states[0] == s && states[|states| - 1] == s.(main := Joining, running := false)
  {
    var stopping := s.(main := Stopping, running := false);
    var announcing := s.(main := Announcing, running := false, lock := ByMain);
    var announced := s.(main := Announced, running := false, lock := ByMain);
    var joining := s.(main := Joining, running := false);
    assert WakeAll(s.workers) == s.workers;
    OneStep(s, Stop, stopping);
    OneStep(stopping, MainLock, announcing);
    OneStep(announcing, Announce, announced);
    OneStep(announced, MainUnlock, joining);
    hide Run;
    states := FourSteps(s, stopping, announcing, announced, joining);
  }

  lemma AWorkerCanLeave(s: State, i: nat) returns (states: seq<State>)
    requires i < |s.workers| && s.workers[i].Entering? && s.lock.Free? && s.queue == [] && !s.running
    ensures Run(states) && states[0] == s && states[|states| - 1] == Set(s, i, Done)
  {
    var testing, leaving := Set(s, i, Testing).(lock := ByWorker(i)), Set(s, i, Leaving).(lock := ByWorker(i));
    var exiting := Set(s, i, Exiting).(lock := ByWorker(i));
    OneStep(s, Lock(i), testing);
    OneStep(testing, Test(i), leaving);
    OneStep(leaving, Leave(i), exiting);
    OneStep(exiting, Unlock(i), Set(s, i, Done));
    hide Run;
    states := FourSteps(s, testing, leaving, exiting, Set(s, i, Done));
  }

  // From the start a job of any damage can be sent, taken and applied, and the game shut down.
  lemma AGameCanFinish(damage: real) returns (states: seq<State>)
    requires damage > 0.0
    ensures Run(states) && Init(states[0])
    ensures
      var last := states[|states| - 1];
      last.main.Finished? && last.sent == last.taken == last.applied == [Job(0, damage)]
  {
    hide Run;
    var start := State([Entering], Idle, Free, Free, [], true, FULL_HP, [], [], [], [], 0, 0.0);
    assert Init(start) && !AnyWaiting(start.workers);
    states := AJobCanBeSent(start, damage);
    var more := AJobCanBeTaken(states[|states| - 1], 0);
    states := RunsJoin(states, more);
    more := AJobCanBeApplied(states[|states| - 1], 0);
    states := RunsJoin(states, more);
    more := TheGameCanBeStopped(states[|states| - 1]);
    states := RunsJoin(states, more);
    more := AWorkerCanLeave(states[|states| - 1], 0);
    states := RunsJoin(states, more);
    var last := states[|states| - 1];
    OneStep(last, Join, last.(main := Finished));
    states := RunsJoin(states, [last, last.(main := Finished)]);
  }
}
