// deadlock_hunters.c: threads spinning on try-locks, the edges they record while they wait, and the
// monitor that reports a lasting cycle. Any number of threads, each with any list of resources.
module DeadlockHunters {
  import opened Wrappers
  import opened WaitForGraph

  // Where a thread is while it acquires the resource at its position.
  datatype Phase =
    | Trying           // about to try the lock
    | Locked           // has the lock, about to record its label
    | Labelled         // about to record its index
    | Clearing         // about to clear its edges
    | Busy             // the try failed; about to read the owner
    | Adding(to: nat)  // has read the owner, about to add an edge

  datatype Thread = Thread(program: seq<nat>, at: nat, phase: Phase)

  // A mutex with the fields the threads read without the graph lock.
  datatype Resource = Resource(holder: Option<nat>, labelled: bool, ownerIdx: Option<nat>)

  datatype State = State(threads: seq<Thread>, resources: seq<Resource>, edges: Graph,
                         started: int, now: int, reported: bool)

  datatype Step = Try(i: nat) | Label(i: nat) | Index(i: nat) | Clear(i: nat) | Read(i: nat) | Add(i: nat)
                | Monitor(time: int)

  // The resource thread i is acquiring.
  function Wanted(s: State, i: nat): nat
    requires i < |s.threads| && s.threads[i].at < |s.threads[i].program|
  {
    s.threads[i].program[s.threads[i].at]
  }

  ghost predicate WellFormed(s: State) {
    forall i, k :: 0 <= i < |s.threads| && 0 <= k < |s.threads[i].program| ==> s.threads[i].program[k] < |s.resources|
  }

  ghost predicate Init(s: State) {
    && WellFormed(s)
    && (forall i :: 0 <= i < |s.threads| ==> s.threads[i].at == 0 && s.threads[i].phase == Trying)
    && (forall r :: 0 <= r < |s.resources| ==> s.resources[r] == Resource(None, false, None))
    && s.edges == {} && s.started == 0 && !s.reported
  }

  function At(s: State, i: nat, phase: Phase): State
    requires i < |s.threads|
  {
    s.(threads := s.threads[i := s.threads[i].(phase := phase)])
  }

  ghost predicate ThreadStep(s: State, step: Step, i: nat, t: State)
    requires WellFormed(s) && i < |s.threads| && s.threads[i].at < |s.threads[i].program|
  {
    var r := Wanted(s, i);
    var res := s.resources[r];
    match step
    case Try(_) =>
      && s.threads[i].phase.Trying?
      && t == (if res.holder.None? then At(s, i, Locked).(resources := s.resources[r := res.(holder := Some(i))])
               else At(s, i, Busy))
    case Label(_) =>
      s.threads[i].phase.Locked? && t == At(s, i, Labelled).(resources := s.resources[r := res.(labelled := true)])
    case Index(_) =>
      s.threads[i].phase.Labelled? && t == At(s, i, Clearing).(resources := s.resources[r := res.(ownerIdx := Some(i))])
    case Clear(_) =>
      && s.threads[i].phase.Clearing?
      && t == s.(threads := s.threads[i := s.threads[i].(at := s.threads[i].at + 1, phase := Trying)],
                 edges := set e | e in s.edges && e.0 != i)
    case Read(_) =>
      && s.threads[i].phase.Busy?
      && t == At(s, i, if res.labelled && res.ownerIdx.Some? then Adding(res.ownerIdx.value) else Trying)
    case Add(_) =>
      && s.threads[i].phase.Adding?
      && t == At(s, i, Trying).(edges := s.edges + {(i, s.threads[i].phase.to)})
    case Monitor(_) => false
  }

  // One round of the monitor: it looks for a cycle and reports one that has lasted five seconds.
  ghost predicate MonitorStep(s: State, time: int, t: State) {
    && s.now <= time && 0 < time && !s.reported
    && var started := if !HasCycle(s.edges) then 0 else if s.started == 0 then time else s.started;
       t == s.(now := time, started := started, reported := started != 0 && time - started >= 5)
  }

  ghost predicate Next(s: State, step: Step, t: State)
    requires WellFormed(s)
  {
    match step
    case Monitor(time) => MonitorStep(s, time, t)
    case _ => step.i < |s.threads| && s.threads[step.i].at < |s.threads[step.i].program| && ThreadStep(s, step, step.i, t)
  }

  // Thread j has finished acquiring r.
  ghost predicate Owns(s: State, j: nat, r: nat)
    requires j < |s.threads|
  {
    exists k :: 0 <= k < s.threads[j].at && k < |s.threads[j].program| && s.threads[j].program[k] == r
  }

  predicate Spinning(p: Phase) {
    p.Trying? || p.Busy? || p.Adding?
  }

  // Thread i is spinning on a mutex held by j.
  ghost predicate WaitsFor(s: State, i: nat, j: nat) {
    && i < |s.threads| && j < |s.threads|
    && s.threads[i].at < |s.threads[i].program| && Spinning(s.threads[i].phase)
    && Wanted(s, i) < |s.resources| && s.resources[Wanted(s, i)].holder == Some(j)
  }

  ghost predicate ThreadInv(s: State, i: nat)
    requires WellFormed(s) && i < |s.threads|
  {
    var th := s.threads[i];
    && th.at <= |th.program|
    && (forall k :: 0 <= k < th.at ==> s.resources[th.program[k]] == Resource(Some(i), true, Some(i)))
    && (th.at == |th.program| ==> th.phase.Trying?)
    && (th.at < |th.program| ==>
          var res := s.resources[Wanted(s, i)];
          && (th.phase.Locked? ==> res == Resource(Some(i), false, None))
          && (th.phase.Labelled? ==> res == Resource(Some(i), true, None))
          && (th.phase.Clearing? ==> res == Resource(Some(i), true, Some(i)))
          && (th.phase.Busy? ==> res.holder.Some?)
          && (th.phase.Adding? ==> res.holder == Some(th.phase.to)))
  }

  ghost predicate ResourceInv(s: State, r: nat)
    requires r < |s.resources|
  {
    var res := s.resources[r];
    && (res.holder.None? ==> !res.labelled)
    && (res.ownerIdx.Some? ==> res.ownerIdx == res.holder)
    && (res.holder.Some? ==>
          var j := res.holder.value;
          && j < |s.threads|
          && (Owns(s, j, r) || (s.threads[j].at < |s.threads[j].program| && s.threads[j].program[s.threads[j].at] == r
                                && !Spinning(s.threads[j].phase))))
  }

  ghost predicate Inv(s: State) {
    && WellFormed(s)
    && (forall i :: 0 <= i < |s.threads| ==> ThreadInv(s, i))
    && (forall r :: 0 <= r < |s.resources| ==> ResourceInv(s, r))
    && (forall i, j :: (i, j) in s.edges ==> WaitsFor(s, i, j))
    && (s.started != 0 || s.reported ==> HasCycle(s.edges))
  }

  lemma InitHolds(s: State)
    requires Init(s)
    ensures Inv(s)
  {
  }

  // What one step of thread i may change.
  lemma StepFrame(s: State, step: Step, i: nat, t: State)
    requires WellFormed(s) && i < |s.threads| && s.threads[i].at < |s.threads[i].program| && ThreadStep(s, step, i, t)
    ensures WellFormed(t) && |t.threads| == |s.threads| && |t.resources| == |s.resources|
    ensures forall j :: 0 <= j < |s.threads| && j != i ==> t.threads[j] == s.threads[j]
    ensures forall r :: 0 <= r < |s.resources| && r != Wanted(s, i) ==> t.resources[r] == s.resources[r]
    ensures t.threads[i].program == s.threads[i].program
    ensures t.threads[i].at == s.threads[i].at + (if step.Clear? then 1 else 0)
    ensures t.started == s.started && t.reported == s.reported && t.now == s.now
  {
  }

  // A held mutex keeps its holder, and only the holder writes its other fields.
  lemma HoldersStay(s: State, step: Step, i: nat, t: State, r: nat)
    requires WellFormed(s) && i < |s.threads| && s.threads[i].at < |s.threads[i].program| && ThreadStep(s, step, i, t)
    requires ThreadInv(s, i) && r < |s.resources| == |t.resources| && s.resources[r].holder.Some?
    ensures t.resources[r].holder == s.resources[r].holder
    ensures s.resources[r].holder != Some(i) ==> t.resources[r] == s.resources[r]
  {
  }

  lemma KeepsOtherThread(s: State, step: Step, i: nat, t: State, j: nat)
    requires Inv(s) && i < |s.threads| && s.threads[i].at < |s.threads[i].program| && ThreadStep(s, step, i, t)
    requires WellFormed(t) && j < |s.threads| == |t.threads| && j != i
    ensures ThreadInv(t, j)
  {
    assert ThreadInv(s, i) && ThreadInv(s, j);
    StepFrame(s, step, i, t);
    hide Inv, ThreadStep;
    forall r: nat | r < |s.resources| && s.resources[r].holder.Some?
      ensures t.resources[r].holder == s.resources[r].holder
      ensures s.resources[r].holder != Some(i) ==> t.resources[r] == s.resources[r]
    {
      HoldersStay(s, step, i, t, r);
    }
  }

  lemma KeepsStepper(s: State, step: Step, i: nat, t: State)
    requires Inv(s) && i < |s.threads| && s.threads[i].at < |s.threads[i].program| && ThreadStep(s, step, i, t)
    requires WellFormed(t) && i < |t.threads|
    ensures ThreadInv(t, i)
  {
    assert ThreadInv(s, i) && ResourceInv(s, Wanted(s, i));
    hide Inv, Owns;
    OwnResourcesStay(s, step, i, t);
  }

  lemma OwnResourcesStay(s: State, step: Step, i: nat, t: State)
    requires WellFormed(s) && i < |s.threads| && s.threads[i].at < |s.threads[i].program| && ThreadStep(s, step, i, t)
    requires WellFormed(t) && ThreadInv(s, i)
    ensures |t.threads| == |s.threads| && t.threads[i].program == s.threads[i].program && |t.resources| == |s.resources|
    ensures forall k :: 0 <= k < s.threads[i].at ==> t.resources[s.threads[i].program[k]] == Resource(Some(i), true, Some(i))
  {
  }

  lemma KeepsThread(s: State, step: Step, i: nat, t: State, j: nat)
    requires Inv(s) && i < |s.threads| && s.threads[i].at < |s.threads[i].program| && ThreadStep(s, step, i, t)
    requires WellFormed(t) && j < |s.threads| == |t.threads|
    ensures ThreadInv(t, j)
  {
    hide Inv, ThreadStep, ThreadInv;
    if j == i {
      KeepsStepper(s, step, i, t);
    } else {
      KeepsOtherThread(s, step, i, t, j);
    }
  }

  // An owner, or a thread past its try, still stands behind the mutex it holds.
  lemma HolderStandsByIt(s: State, step: Step, i: nat, t: State, j: nat, r: nat)
    requires WellFormed(s) && i < |s.threads| && s.threads[i].at < |s.threads[i].program| && ThreadStep(s, step, i, t)
    requires WellFormed(t) && j < |s.threads| == |t.threads|
    requires Owns(s, j, r) || (s.threads[j].at < |s.threads[j].program| && Wanted(s, j) == r && !Spinning(s.threads[j].phase))
    ensures Owns(t, j, r) || (t.threads[j].at < |t.threads[j].program| && Wanted(t, j) == r && !Spinning(t.threads[j].phase))
  {
    StepFrame(s, step, i, t);
    if Owns(s, j, r) {
      var k :| 0 <= k < s.threads[j].at && k < |s.threads[j].program| && s.threads[j].program[k] == r;
      assert k < t.threads[j].at && t.threads[j].program[k] == r;
    } else if step.Clear? && j == i {
      assert t.threads[i].program[s.threads[i].at] == r;
    }
  }

  // The fields of the wanted mutex after a step, and who holds it.
  lemma WantedAfter(s: State, step: Step, i: nat, t: State)
    requires Inv(s) && i < |s.threads| && s.threads[i].at < |s.threads[i].program| && ThreadStep(s, step, i, t)
    requires |t.resources| == |s.resources| && |t.threads| == |s.threads|
    ensures var res := t.resources[Wanted(s, i)];
      && (res.holder.None? ==> !res.labelled) && (res.ownerIdx.Some? ==> res.ownerIdx == res.holder)
      && (res.holder != s.resources[Wanted(s, i)].holder ==>
            res.holder == Some(i) && t.threads[i].phase == Locked && Wanted(t, i) == Wanted(s, i))
  {
    assert ResourceInv(s, Wanted(s, i)) && ThreadInv(s, i);
    hide Inv, Owns;
  }

  lemma KeepsResource(s: State, step: Step, i: nat, t: State, r: nat)
    requires Inv(s) && i < |s.threads| && s.threads[i].at < |s.threads[i].program| && ThreadStep(s, step, i, t)
    requires r < |s.resources| == |t.resources|
    ensures ResourceInv(t, r)
  {
    assert ResourceInv(s, r);
    StepFrame(s, step, i, t);
    WantedAfter(s, step, i, t);
    hide Inv, Owns, ThreadStep, Spinning;
    var res := t.resources[r];
    if res.holder.Some? && res.holder == s.resources[r].holder {
      HolderStandsByIt(s, step, i, t, res.holder.value, r);
    } else if res.holder.Some? {
      assert !Spinning(Locked) by {
        LockedIsPastTheTry();
      }
    }
  }

  lemma LockedIsPastTheTry()
    ensures !Spinning(Locked)
  {
  }

  lemma KeepsEdge(s: State, step: Step, i: nat, t: State, a: nat, b: nat)
    requires Inv(s) && i < |s.threads| && s.threads[i].at < |s.threads[i].program| && ThreadStep(s, step, i, t)
    requires WellFormed(t) && (a, b) in t.edges
    ensures WaitsFor(t, a, b)
  {
    StepFrame(s, step, i, t);
    if (a, b) in s.edges {
      assert WaitsFor(s, a, b);
    } else {
      assert ThreadInv(s, i) && ResourceInv(s, Wanted(s, i));
    }
  }

  // Because no mutex is ever released, clearing a thread's edges never removes one.
  lemma EdgesGrow(s: State, step: Step, t: State)
    requires Inv(s) && Next(s, step, t)
    ensures s.edges <= t.edges
  {
    if step.Clear? {
      forall e | e in s.edges ensures e.0 != step.i {
        assert WaitsFor(s, e.0, e.1);
      }
    }
  }

  lemma MoreEdgesKeepCycle(g: Graph, h: Graph)
    requires g <= h && HasCycle(g)
    ensures HasCycle(h)
  {
    var p :| IsCycle(g, p);
    assert IsCycle(h, p);
  }

  lemma SameOwners(s: State, t: State, r: nat)
    requires r < |s.resources| && ResourceInv(s, r) && t.threads == s.threads && t.resources == s.resources
    ensures ResourceInv(t, r)
  {
    forall j | 0 <= j < |s.threads| ensures Owns(s, j, r) ==> Owns(t, j, r) {
    }
  }

  lemma NextKeepsInv(s: State, step: Step, t: State)
    requires Inv(s) && Next(s, step, t)
    ensures Inv(t)
  {
    EdgesGrow(s, step, t);
    if s.started != 0 || s.reported {
      MoreEdgesKeepCycle(s.edges, t.edges);
    }
    if step.Monitor? {
      forall j | 0 <= j < |t.threads| ensures ThreadInv(t, j) {
        assert ThreadInv(s, j);
      }
      forall r | 0 <= r < |t.resources| ensures ResourceInv(t, r) {
        SameOwners(s, t, r);
      }
    } else {
      var i := step.i;
      StepFrame(s, step, i, t);
      forall j | 0 <= j < |t.threads| ensures ThreadInv(t, j) {
        KeepsThread(s, step, i, t, j);
      }
      forall r | 0 <= r < |t.resources| ensures ResourceInv(t, r) {
        KeepsResource(s, step, i, t, r);
      }
      forall a: nat, b: nat | (a, b) in t.edges ensures WaitsFor(t, a, b) {
        KeepsEdge(s, step, i, t, a, b);
      }
    }
  }

  // ----- a cycle is a real deadlock, and it lasts -----

  ghost predicate WaitsIn(s: State, i: nat, d: set<nat>) {
    exists j :: j in d && WaitsFor(s, i, j)
  }

  // Every member of d spins on a mutex held by a member of d.
  ghost predicate Deadlocked(s: State, d: set<nat>) {
    d != {} && forall i {:trigger WaitsIn(s, i, d)} :: i in d ==> WaitsIn(s, i, d)
  }

  // The members of d are still where they were in their programs, short of the end.
  ghost predicate NoFurther(s: State, t: State, d: set<nat>) {
    |s.threads| == |t.threads|
    && forall i :: i in d && i < |s.threads| ==>
         t.threads[i].at == s.threads[i].at < |s.threads[i].program| == |t.threads[i].program|
  }

  lemma CycleIsDeadlock(s: State, p: seq<nat>)
    requires Inv(s) && IsCycle(s.edges, p)
    ensures Deadlocked(s, set v | v in p)
  {
    var d := set v | v in p;
    assert p[0] in d;
    forall i | i in d ensures WaitsIn(s, i, d) {
      var k :| 0 <= k < |p| && p[k] == i;
      var j := if k + 1 < |p| then k else 0;
      assert (p[j], p[j + 1]) in s.edges;
      assert WaitsFor(s, p[j], p[j + 1]);
    }
  }

  lemma WaitLasts(s: State, step: Step, t: State, i: nat, j: nat)
    requires Inv(s) && Next(s, step, t) && WaitsFor(s, i, j)
    ensures WaitsFor(t, i, j) && NoFurther(s, t, {i})
  {
    assert ThreadInv(s, i);
    if !step.Monitor? {
      StepFrame(s, step, step.i, t);
      assert ThreadInv(s, step.i);
    }
  }

  lemma WaitInLasts(s: State, step: Step, t: State, i: nat, d: set<nat>)
    requires Inv(s) && Next(s, step, t) && WaitsIn(s, i, d)
    ensures WaitsIn(t, i, d) && NoFurther(s, t, {i})
  {
    hide Inv, Next, WaitsFor, NoFurther;
    var j :| j in d && WaitsFor(s, i, j);
    WaitLasts(s, step, t, i, j);
  }

  // Deadlocked threads stay deadlocked, at the same position of their programs.
  lemma DeadlockLasts(s: State, step: Step, t: State, d: set<nat>)
    requires Inv(s) && Next(s, step, t) && Deadlocked(s, d)
    ensures Deadlocked(t, d) && NoFurther(s, t, d)
  {
    hide Inv, Next, WaitsIn;
    var i0 :| i0 in d;
    WaitInLasts(s, step, t, i0, d);
    forall i | i in d ensures WaitsIn(t, i, d) && NoFurther(s, t, {i}) {
      WaitInLasts(s, step, t, i, d);
    }
    forall i | i in d && i < |s.threads|
      ensures t.threads[i].at == s.threads[i].at < |s.threads[i].program| == |t.threads[i].program|
    {
      assert i in {i};
      assert NoFurther(s, t, {i});
    }
  }

  ghost predicate Stepped(s: State, t: State) {
    WellFormed(s) && exists step :: Next(s, step, t)
  }

  ghost predicate Run(states: seq<State>): (b: bool)
    ensures b ==> states != []
  {
    states != [] && forall k :: 0 <= k < |states| - 1 ==> Stepped(states[k], states[k + 1])
  }

  lemma {:induction false} RunKeepsInv(states: seq<State>)
    requires Run(states) && Inv(states[0])
    ensures forall k :: 0 <= k < |states| ==> Inv(states[k])
    decreases |states|
  {
    hide Next, Inv;
    if |states| > 1 {
      assert Stepped(states[0], states[1]);
      var step :| Next(states[0], step, states[1]);
      NextKeepsInv(states[0], step, states[1]);
      var rest := states[1..];
      assert Run(rest) by {
        forall k | 0 <= k < |rest| - 1 ensures Stepped(rest[k], rest[k + 1]) {
          assert Stepped(states[k + 1], states[k + 2]);
        }
      }
      RunKeepsInv(rest);
      forall k | 0 <= k < |states| ensures Inv(states[k]) {
        assert k > 0 ==> rest[k - 1] == states[k];
      }
    }
  }

  lemma {:induction false} DeadlockLastsForever(states: seq<State>, d: set<nat>, k: nat)
    requires Run(states) && (forall m :: 0 <= m < |states| ==> Inv(states[m])) && k < |states|
    requires Deadlocked(states[0], d)
    ensures Deadlocked(states[k], d) && NoFurther(states[0], states[k], d)
    decreases k
  {
    hide Next, Inv, Deadlocked;
    if k == 0 {
      DeadlockHere(states[0], d);
    } else {
      DeadlockLastsForever(states, d, k - 1);
      assert Stepped(states[k - 1], states[k]);
      var step :| Next(states[k - 1], step, states[k]);
      DeadlockLasts(states[k - 1], step, states[k], d);
    }
  }

  lemma DeadlockHere(s: State, d: set<nat>)
    requires Inv(s) && Deadlocked(s, d)
    ensures NoFurther(s, s, d)
  {
    forall i | i in d && i < |s.threads| ensures s.threads[i].at < |s.threads[i].program| {
      assert WaitsIn(s, i, d);
    }
  }

  // A cycle seen at any moment of a run is a deadlock of the threads on it, and from then on none of
  // them gets any further in its program.
  lemma DetectedCycleIsPermanent(states: seq<State>, k: nat, m: nat, p: seq<nat>)
    requires Run(states) && Init(states[0]) && k <= m < |states| && IsCycle(states[k].edges, p)
    ensures Deadlocked(states[m], set v | v in p)
    ensures NoFurther(states[k], states[m], set v | v in p)
    ensures HasCycle(states[m].edges)
  {
    hide Inv, Init, Deadlocked, Next;
    InitHolds(states[0]);
    RunKeepsInv(states);
    var d := set v | v in p;
    CycleIsDeadlock(states[k], p);
    var rest := states[k..];
    assert Run(rest) by {
      forall j | 0 <= j < |rest| - 1 ensures Stepped(rest[j], rest[j + 1]) {
        assert Stepped(states[k + j], states[k + j + 1]);
      }
    }
    DeadlockLastsForever(rest, d, m - k);
    assert rest[m - k] == states[m] && rest[0] == states[k];
    CycleLasts(states, k, m);
  }

  lemma {:induction false} CycleLasts(states: seq<State>, k: nat, m: nat)
    requires Run(states) && (forall j :: 0 <= j < |states| ==> Inv(states[j])) && k <= m < |states|
    requires HasCycle(states[k].edges)
    ensures HasCycle(states[m].edges)
    decreases m - k
  {
    hide Next, Inv, HasCycle;
    if k < m {
      assert Stepped(states[k], states[k + 1]);
      var step :| Next(states[k], step, states[k + 1]);
      EdgesGrow(states[k], step, states[k + 1]);
      MoreEdgesKeepCycle(states[k].edges, states[k + 1].edges);
      CycleLasts(states, k + 1, m);
    }
  }

  // What the monitor reports is a deadlock.
  lemma ReportIsReal(s: State)
    requires Inv(s) && s.reported
    ensures exists d :: Deadlocked(s, d)
  {
    var p :| IsCycle(s.edges, p);
    CycleIsDeadlock(s, p);
  }

  // Once a cycle has been noticed the starting time is kept, so the report comes with the first round
  // at least five seconds later.
  lemma StartIsKept(s: State, step: Step, t: State)
    requires Inv(s) && Next(s, step, t) && s.started != 0
    ensures t.started == s.started
    ensures step.Monitor? ==> (t.reported <==> step.time - s.started >= 5)
  {
  }

  // ----- a real deadlock shows up as a cycle -----

  // The holder of the mutex has written both of its fields.
  predicate Published(s: State, r: nat)
    requires r < |s.resources|
  {
    s.resources[r].labelled && s.resources[r].ownerIdx.Some?
  }

  // A waiting thread's next attempt: its try fails, it reads the owner as the holder unless the holder
  // has yet to publish itself, and the edge it adds leads to that holder.
  lemma AttemptRecordsEdge(s: State, step: Step, t: State, i: nat, j: nat)
    requires Inv(s) && WaitsFor(s, i, j)
    requires Next(s, step, t) && !step.Monitor? && step.i == i
    ensures s.threads[i].phase.Trying? ==> t.threads[i].phase.Busy?
    ensures s.threads[i].phase.Busy? ==>
      t.threads[i].phase == if Published(s, Wanted(s, i)) then Adding(j) else Trying
    ensures s.threads[i].phase.Adding? ==> (i, j) in t.edges
  {
    assert ThreadInv(s, i) && ResourceInv(s, Wanted(s, i));
  }

  // A holder that is itself waiting has published itself.
  lemma WaitingHolderIsPublished(s: State, i: nat, j: nat)
    requires Inv(s) && WaitsFor(s, i, j) && j < |s.threads| && Spinning(s.threads[j].phase)
    ensures Published(s, Wanted(s, i))
  {
    assert ThreadInv(s, j) && ResourceInv(s, Wanted(s, i));
    assert Owns(s, j, Wanted(s, i));
  }

  ghost predicate LeadsInto(g: Graph, i: nat, d: set<nat>) {
    exists j :: j in d && (i, j) in g
  }

  lemma {:induction false} Walk(g: Graph, d: set<nat>, start: nat, k: nat) returns (p: seq<nat>)
    requires start in d && forall i {:trigger LeadsInto(g, i, d)} :: i in d ==> LeadsInto(g, i, d)
    ensures |p| == k + 1 && p[0] == start && IsPath(g, p) && forall v :: v in p ==> v in d
    decreases k
  {
    if k == 0 {
      p := [start];
    } else {
      assert LeadsInto(g, start, d);
      var next :| next in d && (start, next) in g;
      var rest := Walk(g, d, next, k - 1);
      p := [start] + rest;
    }
  }

  lemma {:induction false} DistinctFit(p: seq<nat>, d: set<nat>)
    requires (forall v :: v in p ==> v in d) && forall i, j :: 0 <= i < j < |p| ==> p[i] != p[j]
    ensures |p| <= |d|
    decreases |p|
  {
    if p != [] {
      DistinctFit(p[1..], d - {p[0]});
    }
  }

  lemma EveryWaitRecordedMakesCycle(g: Graph, d: set<nat>)
    requires d != {} && forall i {:trigger LeadsInto(g, i, d)} :: i in d ==> LeadsInto(g, i, d)
    ensures HasCycle(g)
  {
    var start :| start in d;
    var p := Walk(g, d, start, |d|);
    if forall i, j :: 0 <= i < j < |p| ==> p[i] != p[j] {
      DistinctFit(p, d);
    }
    var i, j :| 0 <= i < j < |p| && p[i] == p[j];
    assert IsCycle(g, p[i..j + 1]);
  }

  ghost predicate Recorded(s: State, i: nat) {
    exists j :: (i, j) in s.edges
  }

  // The detector's answer is exact: as soon as every member of a deadlocked set has recorded an edge,
  // the graph has a cycle.
  lemma DeadlockIsDetected(s: State, d: set<nat>)
    requires Inv(s) && Deadlocked(s, d)
    requires forall i :: i in d ==> Recorded(s, i)
    ensures HasCycle(s.edges)
  {
    forall i | i in d ensures LeadsInto(s.edges, i, d) {
      assert WaitsIn(s, i, d);
      assert Recorded(s, i);
      var j :| (i, j) in s.edges;
      assert WaitsFor(s, i, j);
    }
    EveryWaitRecordedMakesCycle(s.edges, d);
  }

  // ----- every lasting deadlock is detected and reported, over whole runs -----

  // A run with the steps that make it.
  ghost predicate Played(states: seq<State>, steps: seq<Step>) {
    && |states| == |steps| + 1
    && forall k :: 0 <= k < |steps| ==> WellFormed(states[k]) && Next(states[k], steps[k], states[k + 1])
  }

  predicate TurnOf(step: Step, i: nat) {
    !step.Monitor? && step.i == i
  }

  // How many steps are thread i's.
  function Turns(steps: seq<Step>, i: nat): nat {
    if steps == [] then 0 else Turns(steps[..|steps| - 1], i) + if TurnOf(steps[|steps| - 1], i) then 1 else 0
  }

  // How many more steps a deadlocked thread needs to record its wait.
  function Need(p: Phase): nat {
    if p.Adding? then 1 else if p.Busy? then 2 else 3
  }

  lemma PlayedIsRun(states: seq<State>, steps: seq<Step>)
    requires Played(states, steps)
    ensures Run(states)
  {
    hide Next, WellFormed;
    forall k | 0 <= k < |states| - 1 ensures Stepped(states[k], states[k + 1]) {
      assert Next(states[k], steps[k], states[k + 1]);
    }
  }

  lemma DeadlockedThreadWaits(s: State, d: set<nat>, i: nat) returns (j: nat)
    requires Inv(s) && Deadlocked(s, d) && i in d
    ensures WaitsFor(s, i, j) && Published(s, Wanted(s, i))
  {
    assert WaitsIn(s, i, d);
    j :| j in d && WaitsFor(s, i, j);
    assert WaitsIn(s, j, d);
    WaitingHolderIsPublished(s, i, j);
  }

  // Every step of a deadlocked thread brings it closer to recording its wait.
  lemma NeedShrinks(s: State, step: Step, t: State, d: set<nat>, i: nat)
    requires Inv(s) && Next(s, step, t) && Deadlocked(s, d) && i in d && TurnOf(step, i)
    ensures i < |s.threads| && i < |t.threads|
    ensures Recorded(t, i) || Need(t.threads[i].phase) < Need(s.threads[i].phase)
  {
    var j := DeadlockedThreadWaits(s, d, i);
    AttemptRecordsEdge(s, step, t, i, j);
    WaitLasts(s, step, t, i, j);
  }

  lemma NeedStays(s: State, step: Step, t: State, i: nat)
    requires WellFormed(s) && Next(s, step, t) && !TurnOf(step, i) && i < |s.threads|
    ensures i < |t.threads| && t.threads[i].phase == s.threads[i].phase
  {
    if !step.Monitor? {
      StepFrame(s, step, step.i, t);
    }
  }

  lemma RecordsStay(s: State, step: Step, t: State, i: nat)
    requires Inv(s) && Next(s, step, t)
    ensures Recorded(s, i) ==> Recorded(t, i)
  {
    EdgesGrow(s, step, t);
  }

  lemma {:induction false} RecordedAfterTurns(states: seq<State>, steps: seq<Step>, d: set<nat>, i: nat, n: nat)
    requires Played(states, steps) && n <= |steps| && i in d
    requires forall k :: 0 <= k < |states| ==> Inv(states[k]) && Deadlocked(states[k], d)
    ensures i < |states[n].threads|
    ensures Recorded(states[n], i) || Turns(steps[..n], i) + Need(states[n].threads[i].phase) <= 3
    decreases n
  {
    hide Inv, Next, Deadlocked, Recorded, Need, TurnOf;
    if n == 0 {
      var j := DeadlockedThreadWaits(states[0], d, i);
      NeedIsAtMostThree(states[0].threads[i].phase);
    } else {
      var s, step, t := states[n - 1], steps[n - 1], states[n];
      RecordedAfterTurns(states, steps, d, i, n - 1);
      assert steps[..n][..n - 1] == steps[..n - 1];
      assert Next(s, step, t);
      RecordsStay(s, step, t, i);
      if TurnOf(step, i) {
        NeedShrinks(s, step, t, d, i);
      } else {
        NeedStays(s, step, t, i);
      }
    }
  }

  lemma NeedIsAtMostThree(p: Phase)
    ensures 1 <= Need(p) <= 3
  {
  }

  // Detection is complete: once every thread of a deadlock has taken three more steps, in whatever
  // order and with whatever steps of other threads between, the graph has a cycle.
  lemma DeadlockShowsInThreeTurns(states: seq<State>, steps: seq<Step>, d: set<nat>, k: nat, m: nat)
    requires Played(states, steps) && Init(states[0]) && k <= m < |states|
    requires Deadlocked(states[k], d) && forall i :: i in d ==> Turns(steps[k..m], i) >= 3
    ensures HasCycle(states[m].edges)
  {
    hide Inv, Init, Next, Deadlocked, Turns, HasCycle, Recorded, Need;
    InitHolds(states[0]);
    PlayedIsRun(states, steps);
    RunKeepsInv(states);
    var part, turns := states[k..m + 1], steps[k..m];
    assert Played(part, turns);
    PlayedIsRun(part, turns);
    forall n: nat | n < |part| ensures Deadlocked(part[n], d) {
      DeadlockLastsForever(part, d, n);
    }
    forall i | i in d ensures Recorded(states[m], i) {
      RecordedAfterTurns(part, turns, d, i, m - k);
      assert turns[..m - k] == turns && part[m - k] == states[m];
      NeedIsAtMostThree(states[m].threads[i].phase);
    }
    assert part[m - k] == states[m];
    DeadlockIsDetected(states[m], d);
  }

  // The starting time lies in the past.
  lemma {:induction false} StartIsPast(states: seq<State>, n: nat)
    requires Run(states) && Init(states[0]) && n < |states|
    ensures states[n].started == 0 || states[n].started <= states[n].now
    decreases n
  {
    hide WellFormed;
    if n > 0 {
      StartIsPast(states, n - 1);
      assert Stepped(states[n - 1], states[n]);
      var step :| Next(states[n - 1], step, states[n]);
      StartMovesToNow(states[n - 1], step, states[n]);
    }
  }

  lemma StartMovesToNow(s: State, step: Step, t: State)
    requires WellFormed(s) && Next(s, step, t)
    ensures t.started == s.started || t.started == 0 || t.started == t.now
    ensures s.now <= t.now
  {
    if !step.Monitor? {
      StepFrame(s, step, step.i, t);
    }
  }

  lemma {:induction false} StartLasts(states: seq<State>, k: nat, m: nat)
    requires Run(states) && (forall j :: 0 <= j < |states| ==> Inv(states[j])) && k <= m < |states|
    requires states[k].started != 0
    ensures states[m].started == states[k].started
    decreases m - k
  {
    hide Next, Inv;
    if k < m {
      assert Stepped(states[k], states[k + 1]);
      var step :| Next(states[k], step, states[k + 1]);
      StartIsKept(states[k], step, states[k + 1]);
      StartLasts(states, k + 1, m);
    }
  }

  lemma LookStarts(s: State, time: int, t: State)
    requires Inv(s) && Next(s, Monitor(time), t) && HasCycle(s.edges)
    requires s.started == 0 || s.started <= s.now
    ensures t.started != 0 && t.started <= time
  {
  }

  // Two looks of the monitor at a cycle, five seconds apart, end in the report, whatever happens between.
  lemma TwoLooksReport(states: seq<State>, steps: seq<Step>, n1: nat, n2: nat)
    requires Played(states, steps) && Init(states[0]) && n1 < n2 < |steps| && HasCycle(states[n1].edges)
    requires steps[n1].Monitor? && steps[n2].Monitor? && steps[n2].time - steps[n1].time >= 5
    ensures states[n2 + 1].reported
  {
    hide Inv, Init, Next, HasCycle;
    InitHolds(states[0]);
    PlayedIsRun(states, steps);
    RunKeepsInv(states);
    StartIsPast(states, n1);
    LookStarts(states[n1], steps[n1].time, states[n1 + 1]);
    StartLasts(states, n1 + 1, n2);
    StartIsKept(states[n2], steps[n2], states[n2 + 1]);
  }

  // Together: a deadlock whose threads go on spinning is reported by the second of two looks at it.
  lemma DeadlockIsReported(states: seq<State>, steps: seq<Step>, d: set<nat>, k: nat, n1: nat, n2: nat)
    requires Played(states, steps) && Init(states[0]) && k <= n1 < n2 < |steps|
    requires Deadlocked(states[k], d) && forall i :: i in d ==> Turns(steps[k..n1], i) >= 3
    requires steps[n1].Monitor? && steps[n2].Monitor? && steps[n2].time - steps[n1].time >= 5
    ensures states[n2 + 1].reported
  {
    hide Init, Deadlocked, Turns, HasCycle, Next;
    DeadlockShowsInThreeTurns(states, steps, d, k, n1);
    TwoLooksReport(states, steps, n1, n2);
  }

  // ----- a common locking order rules the deadlock out -----

  ghost predicate Ascending(s: State) {
    forall i, k, l :: 0 <= i < |s.threads| && 0 <= k < l < |s.threads[i].program| ==>
      s.threads[i].program[k] < s.threads[i].program[l]
  }

  lemma WantsMore(s: State, i: nat, j: nat, k: nat)
    requires Inv(s) && Ascending(s) && WaitsFor(s, i, j) && WaitsFor(s, j, k)
    ensures Wanted(s, i) < Wanted(s, j)
  {
    assert ResourceInv(s, Wanted(s, i));
    assert Owns(s, j, Wanted(s, i));
  }

  lemma {:induction false} WantsAscend(s: State, p: seq<nat>, k: nat)
    requires Inv(s) && Ascending(s) && IsCycle(s.edges, p) && 1 <= k < |p|
    ensures WaitsFor(s, p[0], p[1]) && (k < |p| - 1 ==> WaitsFor(s, p[k], p[k + 1]))
    ensures p[k] < |s.threads| && s.threads[p[k]].at < |s.threads[p[k]].program|
    ensures Wanted(s, p[0]) < Wanted(s, p[k])
    decreases k
  {
    var next := if k < |p| - 1 then p[k + 1] else p[1];
    assert (p[0], p[1]) in s.edges && (p[k - 1], p[k]) in s.edges && (p[k], next) in s.edges;
    assert WaitsFor(s, p[0], p[1]);
    assert WaitsFor(s, p[k - 1], p[k]) && WaitsFor(s, p[k], next);
    WantsMore(s, p[k - 1], p[k], next);
    if k > 1 {
      WantsAscend(s, p, k - 1);
    }
  }

  lemma OrderedLockingNeverDeadlocks(s: State)
    requires Inv(s) && Ascending(s)
    ensures !HasCycle(s.edges) && !s.reported
  {
    if HasCycle(s.edges) {
      var p :| IsCycle(s.edges, p);
      WantsAscend(s, p, |p| - 1);
    }
  }

  // ----- the program itself: T1 takes A then B, T2 takes B then A -----

  function Held(i: nat): Resource {
    Resource(Some(i), true, Some(i))
  }

  lemma OneStep(s: State, step: Step, t: State)
    requires WellFormed(s) && Next(s, step, t)
    ensures Run([s, t])
  {
    assert Stepped(s, t);
  }

  lemma RunsJoin(first: seq<State>, second: seq<State>) returns (all: seq<State>)
    requires Run(first) && Run(second) && first[|first| - 1] == second[0]
    ensures Run(all) && all[0] == first[0] && all[|all| - 1] == second[|second| - 1]
  {
    hide Stepped;
    all := first + second[1..];
    forall k | 0 <= k < |all| - 1
      ensures Stepped(all[k], all[k + 1])
    {
      if k >= |first| - 1 {
        assert all[k] == second[k + 1 - |first|] && all[k + 1] == second[k + 2 - |first|];
      } else {
        assert all[k] == first[k] && all[k + 1] == first[k + 1];
      }
    }
  }

  // Thread i after acquiring the free resource it wants.
  function Acquired(s: State, i: nat): State
    requires WellFormed(s) && i < |s.threads| && s.threads[i].at < |s.threads[i].program|
  {
    s.(threads := s.threads[i := s.threads[i].(at := s.threads[i].at + 1, phase := Trying)],
       resources := s.resources[Wanted(s, i) := Held(i)],
       edges := set e | e in s.edges && e.0 != i)
  }

  lemma FreeResourcesCanBeAcquired(s: State, i: nat) returns (states: seq<State>)
    requires WellFormed(s) && i < |s.threads| && s.threads[i].at < |s.threads[i].program|
    requires s.threads[i].phase.Trying? && s.resources[Wanted(s, i)] == Resource(None, false, None)
    ensures Run(states) && states[0] == s && states[|states| - 1] == Acquired(s, i)
  {
    hide Run, Stepped;
    var r := Wanted(s, i);
    var locked := At(s, i, Locked).(resources := s.resources[r := Resource(Some(i), false, None)]);
    var labelled := At(s, i, Labelled).(resources := s.resources[r := Resource(Some(i), true, None)]);
    var clearing := At(s, i, Clearing).(resources := s.resources[r := Held(i)]);
    OneStep(s, Try(i), locked);
    OneStep(locked, Label(i), labelled);
    OneStep(labelled, Index(i), clearing);
    OneStep(clearing, Clear(i), Acquired(s, i));
    hide At, Next, WellFormed, Acquired;
    states := RunsJoin([s, locked], [locked, labelled]);
    states := RunsJoin(states, [labelled, clearing]);
    states := RunsJoin(states, [clearing, Acquired(s, i)]);
  }

  lemma HeldResourcesAreRecorded(s: State, i: nat, j: nat) returns (states: seq<State>)
    requires WellFormed(s) && i < |s.threads| && s.threads[i].at < |s.threads[i].program|
    requires s.threads[i].phase.Trying? && s.resources[Wanted(s, i)] == Held(j)
    ensures Run(states) && states[0] == s && states[|states| - 1] == s.(edges := s.edges + {(i, j)})
  {
    var busy, adding, added := At(s, i, Busy), At(s, i, Adding(j)), s.(edges := s.edges + {(i, j)});
    assert added == At(added, i, Trying);
    OneStep(s, Try(i), busy);
    OneStep(busy, Read(i), adding);
    OneStep(adding, Add(i), added);
    hide Run, At;
    states := RunsJoin([s, busy], [busy, adding]);
    states := RunsJoin(states, [adding, added]);
  }

  // The two threads of the program, with resource A first and B second.
  function Hunters(at1: nat, at2: nat, a: Resource, b: Resource, edges: Graph): State {
    State([Thread([0, 1], at1, Trying), Thread([1, 0], at2, Trying)], [a, b], edges, 0, 0, false)
  }

  // The monitor, looking at a lasting cycle at some time and five seconds later, ends the program.
  lemma MonitorEndsIt(s: State, time: int) returns (states: seq<State>)
    requires WellFormed(s) && HasCycle(s.edges) && s.started == 0 && !s.reported && time > 0 && s.now <= time
    ensures Run(states) && states[0] == s && states[|states| - 1] == s.(now := time + 5, started := time, reported := true)
  {
    var seen, ended := s.(now := time, started := time), s.(now := time + 5, started := time, reported := true);
    OneStep(s, Monitor(time), seen);
    OneStep(seen, Monitor(time + 5), ended);
    states := RunsJoin([s, seen], [seen, ended]);
  }

  const FREE := Resource(None, false, None)

  lemma HuntersTakeOneEach() returns (states: seq<State>)
    ensures Run(states) && Init(states[0]) && states[|states| - 1] == Hunters(1, 1, Held(0), Held(1), {})
  {
    var start, hasA := Hunters(0, 0, FREE, FREE, {}), Hunters(1, 0, Held(0), FREE, {});
    assert Init(start);
    hide Init;
    assert Acquired(start, 0) == hasA;
    assert Acquired(hasA, 1) == Hunters(1, 1, Held(0), Held(1), {});
    var takeA := FreeResourcesCanBeAcquired(start, 0);
    var takeB := FreeResourcesCanBeAcquired(hasA, 1);
    hide Run, Acquired;
    states := RunsJoin(takeA, takeB);
  }

  lemma HuntersWait(s: State) returns (states: seq<State>)
    requires s == Hunters(1, 1, Held(0), Held(1), {})
    ensures Run(states) && states[0] == s && states[|states| - 1] == s.(edges := {(0, 1), (1, 0)})
  {
    var wait0 := HeldResourcesAreRecorded(s, 0, 1);
    var wait1 := HeldResourcesAreRecorded(s.(edges := s.edges + {(0, 1)}), 1, 0);
    hide Run;
    assert s.edges + {(0, 1)} + {(1, 0)} == {(0, 1), (1, 0)};
    states := RunsJoin(wait0, wait1);
  }

  // The program can start, deadlock, and be ended by the monitor.
  lemma HuntersCanDeadlock(time: int) returns (states: seq<State>)
    requires time > 0
    ensures Run(states) && Init(states[0]) && states[|states| - 1].reported
    ensures Deadlocked(states[|states| - 1], {0, 1})
  {
    hide Run, Init;
    var take := HuntersTakeOneEach();
    var s := Hunters(1, 1, Held(0), Held(1), {});
    var wait := HuntersWait(s);
    var both := s.(edges := {(0, 1), (1, 0)});
    assert IsCycle(both.edges, [0, 1, 0]);
    var looks := MonitorEndsIt(both, time);
    var last := both.(now := time + 5, started := time, reported := true);
    assert WaitsFor(last, 0, 1) && WaitsFor(last, 1, 0);
    assert Deadlocked(last, {0, 1});
    hide Deadlocked;
    states := RunsJoin(take, wait);
    states := RunsJoin(states, looks);
  }
}
