// Mission4-2.c and Mission4-3.c: the SJU-CPU, fetching one instruction at a time or two.
module SjuCpu {
  // Everything an instruction can read or change. Cells are 0..99; input not yet read, output so far.
  datatype State = State(mem: seq<int>, ac: int, pc: int, clock: nat, input: seq<int>, output: seq<int>)

  // Fault is a fetch outside the memory.
  datatype Outcome = Running(s: State) | Halted(s: State) | Fault

  ghost predicate IsState(s: State) {
    |s.mem| == 100
  }

  // C division and remainder by 100 truncate toward zero.
  function Opcode(ir: int): int {
    if ir >= 0 then ir / 100 else -((-ir) / 100)
  }

  function Address(ir: int): int {
    if ir >= 0 then ir % 100 else -((-ir) % 100)
  }

  // A word is its opcode and its address written one after the other, both with the word's sign.
  lemma WordSplits(ir: int)
    ensures ir == 100 * Opcode(ir) + Address(ir) && -100 < Address(ir) < 100
    ensures ir >= 0 ==> Opcode(ir) >= 0 && Address(ir) >= 0
    ensures ir <= 0 ==> Opcode(ir) <= 0 && Address(ir) <= 0
  {
  }

  // The execution functions on a fetched instruction; reading past the end of the input leaves AC.
  function Execute(s: State, ir: int): (o: Outcome)
    requires |s.mem| == 100
    ensures o.Running? || o.Halted?
    ensures |o.s.mem| == 100
  {
    var io :=
      if ir == 901 then if s.input == [] then s else s.(ac := s.input[0], input := s.input[1..])
      else if ir == 902 then s.(output := s.output + [s.ac])
      else s;
    var opcode, a := Opcode(ir), Address(ir);
    if opcode == 0 then Halted(io)
    else if opcode == 1 then Running(io.(ac := io.ac + io.mem[a]))
    else if opcode == 2 then Running(io.(ac := io.ac - io.mem[a]))
    else if opcode == 3 then Running(io.(mem := io.mem[a := io.ac]))
    else if opcode == 5 then Running(io.(ac := io.mem[a]))
    else if opcode == 6 then Running(io.(pc := a))
    else if opcode == 7 then Running(if io.ac == 0 then io.(pc := a) else io)
    else if opcode == 8 then Running(if io.ac >= 0 then io.(pc := a) else io)
    else Running(io)
  }

  function Fetched(s: State): State {
    s.(pc := s.pc + 1, clock := s.clock + 1)
  }

  // One turn of the one-fetch machine.
  function Step(s: State): (o: Outcome)
    requires |s.mem| == 100
    ensures !o.Fault? ==> |o.s.mem| == 100
  {
    if !(0 <= s.pc < 100) then Fault else Execute(Fetched(s), s.mem[s.pc])
  }

  // One turn of the two-fetch machine: both instructions are fetched before either is executed.
  function Round(s: State): (o: Outcome)
    requires |s.mem| == 100
    ensures !o.Fault? ==> |o.s.mem| == 100
  {
    if !(0 <= s.pc < 99) then Fault
    else
      var first := Execute(Fetched(Fetched(s)), s.mem[s.pc]);
      if first.Halted? then first else Execute(first.s, s.mem[s.pc + 1])
  }

  function After(o: Outcome): (r: Outcome)
    requires !o.Fault? ==> |o.s.mem| == 100
    ensures !r.Fault? ==> |r.s.mem| == 100
  {
    if o.Running? then Step(o.s) else o
  }

  function Steps(s: State, n: nat): (o: Outcome)
    requires |s.mem| == 100
    ensures !o.Fault? ==> |o.s.mem| == 100
  {
    if n == 0 then Running(s) else After(Steps(s, n - 1))
  }

  function Rounds(s: State, n: nat): (o: Outcome)
    requires |s.mem| == 100
    ensures !o.Fault? ==> |o.s.mem| == 100
  {
    if n == 0 then Running(s)
    else
      var o := Rounds(s, n - 1);
      if o.Running? then Round(o.s) else o
  }

  // ----- the machines with their registers -----

  class Registers {
    var mar: int
    var mbr: int
    var ir: int

    constructor ()
      ensures mar == 0 && mbr == 0 && ir == 0
    {
      mar, mbr, ir := 0, 0, 0;
    }
  }

  class Machine {
    const memory: array<int>
    var ac: int
    var pc: int
    var clock: nat
    var input: seq<int>
    var output: seq<int>

    ghost function Abs(): State
      reads this, memory
    {
      State(memory[..], ac, pc, clock, input, output)
    }

    constructor (image: seq<int>, input: seq<int>)
      requires |image| == 100
      ensures fresh(memory) && memory.Length == 100 && Abs() == State(image, 0, 0, 0, input, [])
    {
      memory := new int[100](i requires 0 <= i < 100 => image[i]);
      ac, pc, clock := 0, 0, 0;
      this.input := input;
      output := [];
    }

    method InstructionFetch(cpu: Registers)
      requires memory.Length == 100 && 0 <= pc < 100
      modifies this, cpu
      ensures Abs() == Fetched(old(Abs())) && cpu.ir == old(Abs()).mem[old(pc)]
    {
      cpu.mar := pc;
      cpu.mbr := memory[cpu.mar];
      pc := pc + 1;
      cpu.ir := cpu.mbr;
      clock := clock + 1;
    }

    method Execution(cpu: Registers) returns (halted: bool)
      requires memory.Length == 100
      modifies this, memory, cpu
      ensures Execute(old(Abs()), old(cpu.ir)) == if halted then Halted(Abs()) else Running(Abs())
    {
      var opcode := Opcode(cpu.ir);
      if cpu.ir == 901 {
        if input != [] {
          ac, input := input[0], input[1..];
        }
      } else if cpu.ir == 902 {
        output := output + [ac];
      }
      if opcode == 0 {
        return true;
      } else if opcode == 1 {
        cpu.mar := Address(cpu.ir);
        cpu.mbr := memory[cpu.mar];
        ac := ac + cpu.mbr;
      } else if opcode == 2 {
        cpu.mar := Address(cpu.ir);
        cpu.mbr := memory[cpu.mar];
        ac := ac - cpu.mbr;
      } else if opcode == 3 {
        cpu.mar := Address(cpu.ir);
        cpu.mbr := ac;
        memory[cpu.mar] := cpu.mbr;
      } else if opcode == 5 {
        cpu.mar := Address(cpu.ir);
        cpu.mbr := memory[cpu.mar];
        ac := cpu.mbr;
      } else if opcode == 6 {
        pc := Address(cpu.ir);
      } else if opcode == 7 {
        if ac == 0 {
          pc := Address(cpu.ir);
        }
      } else if opcode == 8 {
        if ac >= 0 {
          pc := Address(cpu.ir);
        }
      }
      return false;
    }

    // The loop body of Mission4-2.c.
    method OneFetchTurn(cpu: Registers) returns (r: Turn)
      requires memory.Length == 100
      modifies this, memory, cpu
      ensures r == Faulted <==> Step(old(Abs())) == Fault
      ensures r == Went ==> Step(old(Abs())) == Running(Abs())
      ensures r == Stopped ==> Step(old(Abs())) == Halted(Abs())
    {
      if !(0 <= pc < 100) {
        return Faulted;
      }
      InstructionFetch(cpu);
      var halted := Execution(cpu);
      return if halted then Stopped else Went;
    }

    // The loop body of Mission4-3.c: two register sets share AC, PC and the memory.
    method TwoFetchTurn(cpu1: Registers, cpu2: Registers) returns (r: Turn)
      requires memory.Length == 100 && cpu1 != cpu2
      modifies this, memory, cpu1, cpu2
      ensures r == Faulted <==> Round(old(Abs())) == Fault
      ensures r == Went ==> Round(old(Abs())) == Running(Abs())
      ensures r == Stopped ==> Round(old(Abs())) == Halted(Abs())
    {
      if !(0 <= pc < 99) {
        return Faulted;
      }
      InstructionFetch(cpu1);
      InstructionFetch(cpu2);
      var halted := Execution(cpu1);
      if !halted {
        halted := Execution(cpu2);
      }
      return if halted then Stopped else Went;
    }
  }

  datatype Turn = Went | Stopped | Faulted

  // ----- when one turn of the two-fetch machine is two turns of the other -----

  predicate Taken(s: State, ir: int) {
    Opcode(ir) == 6 || (Opcode(ir) == 7 && s.ac == 0) || (Opcode(ir) == 8 && s.ac >= 0)
  }

  // The first slot does not halt, does not jump and does not overwrite the second slot.
  predicate HazardFree(s: State)
    requires |s.mem| == 100
  {
    && 0 <= s.pc < 99
    && var ir := s.mem[s.pc];
       Opcode(ir) != 0 && !Taken(s, ir) && !(Opcode(ir) == 3 && Address(ir) == s.pc + 1)
  }

  // An instruction that neither halts nor jumps does not notice a second fetch.
  lemma FetchCommutes(s: State, ir: int)
    requires |s.mem| == 100 && Opcode(ir) != 0 && !Taken(s, ir)
    ensures Execute(s, ir).Running?
    ensures Execute(Fetched(s), ir) == Running(Fetched(Execute(s, ir).s))
    ensures Execute(s, ir).s.pc == s.pc
    ensures forall a :: 0 <= a < 100 && !(Opcode(ir) == 3 && Address(ir) == a) ==> Execute(s, ir).s.mem[a] == s.mem[a]
  {
  }

  // Freedom from hazards suffices.
  lemma RoundIsTwoSteps(s: State)
    requires |s.mem| == 100 && HazardFree(s)
    ensures Round(s) == After(Step(s))
  {
    FetchCommutes(Fetched(s), s.mem[s.pc]);
  }

  // An instruction that does not jump and changes nothing, wherever it stands.
  predicate DoesNothing(s: State, ir: int)
    requires |s.mem| == 100
  {
    !Taken(s, ir) && Execute(s, ir) == Running(s)
  }

  // A taken branch to `a` when the second slot holds `second`: either both machines go on to jump
  // to the same place, or one jumps to where the other already is after doing nothing.
  predicate JumpAgrees(s: State, a: int, second: int)
    requires |s.mem| == 100 && 0 <= a < 100
  {
    var target := s.mem[a];
    || (Taken(s, second) && Taken(s, target) && Address(second) == Address(target))
    || (Taken(s, second) && Address(second) == a + 1 && DoesNothing(s, target))
    || (Taken(s, target) && Address(target) == a && DoesNothing(s, second))
  }

  // A store into the second slot: executing the stored word has the effect of executing the old one.
  predicate StoreAgrees(s: State)
    requires |s.mem| == 100 && 0 <= s.pc < 99
  {
    var stored := s.(mem := s.mem[s.pc + 1 := s.ac], pc := s.pc + 2, clock := s.clock + 2);
    Execute(stored, s.ac) == Execute(stored, s.mem[s.pc + 1])
  }

  // When a turn of the two-fetch machine is two turns of the other. On the last cell the second
  // fetch runs off the memory, as the next turn of the one-fetch machine does unless it halts or jumps.
  predicate Agrees(s: State)
    requires |s.mem| == 100
  {
    0 <= s.pc < 100 ==>
      var ir := s.mem[s.pc];
      && Opcode(ir) != 0
      && (s.pc == 99 ==> !Taken(s, ir))
      && (s.pc < 99 && Taken(s, ir) ==> JumpAgrees(s, Address(ir), s.mem[s.pc + 1]))
      && (s.pc < 99 && Opcode(ir) == 3 && Address(ir) == s.pc + 1 ==> StoreAgrees(s))
  }

  // An outcome at another PC and clock.
  function Moved(o: Outcome, pc: int, clock: nat): Outcome {
    match o
    case Running(s) => Running(s.(pc := pc, clock := clock))
    case Halted(s) => Halted(s.(pc := pc, clock := clock))
    case Fault => Fault
  }

  // An instruction that does not jump neither sees nor changes PC and clock; one that does changes
  // nothing but PC.
  lemma ExecuteAnywhere(s: State, ir: int, pc: int, clock: nat)
    requires |s.mem| == 100
    ensures var t := s.(pc := pc, clock := clock);
            && (!Taken(s, ir) ==> Execute(t, ir) == Moved(Execute(s, ir), pc, clock))
            && (!Taken(s, ir) ==> Execute(s, ir) == Moved(Execute(s, ir), s.pc, s.clock))
            && (Taken(s, ir) ==> 0 <= Address(ir) < 100 && Execute(t, ir) == Running(t.(pc := Address(ir))))
  {
  }

  // Two words executed at neighbouring places, before which nothing else differs.
  lemma NeighboursAgree(s: State, a: int, second: int, clock: nat)
    requires |s.mem| == 100 && 0 <= a < 100
    ensures var y := s.(pc := a, clock := clock);
            JumpAgrees(s, a, second) <==> Execute(y, second) == Execute(y.(pc := a + 1), s.mem[a])
  {
    hide Execute;
    ExecuteAnywhere(s, second, a, clock);
    ExecuteAnywhere(s, s.mem[a], a + 1, clock);
    hide Taken, Address;
  }

  lemma BranchTurns(s: State)
    requires |s.mem| == 100 && 0 <= s.pc < 99 && Taken(s, s.mem[s.pc])
    ensures var a := Address(s.mem[s.pc]);
            var y := s.(pc := a, clock := s.clock + 2);
            && 0 <= a < 100
            && Round(s) == Execute(y, s.mem[s.pc + 1])
            && After(Step(s)) == Execute(y.(pc := a + 1), s.mem[a])
  {
    hide Execute;
    ExecuteAnywhere(s, s.mem[s.pc], s.pc + 1, s.clock + 1);
    ExecuteAnywhere(s, s.mem[s.pc], s.pc + 2, s.clock + 2);
    hide Taken, Address;
  }

  lemma StoreExecutes(s: State, ir: int)
    requires |s.mem| == 100 && Opcode(ir) == 3 && 0 <= Address(ir)
    ensures Address(ir) < 100 && Execute(s, ir) == Running(s.(mem := s.mem[Address(ir) := s.ac]))
  {
  }

  // A store in the first slot: the machines go on from the same state with the two words.
  lemma StoreTurns(s: State)
    requires |s.mem| == 100 && 0 <= s.pc < 99 && Opcode(s.mem[s.pc]) == 3 && Address(s.mem[s.pc]) == s.pc + 1
    ensures Round(s) == After(Step(s)) <==> StoreAgrees(s)
  {
    hide Execute, Opcode, Address;
    StoreExecutes(Fetched(s), s.mem[s.pc]);
    StoreExecutes(Fetched(Fetched(s)), s.mem[s.pc]);
  }

  // On the last cell the two-fetch machine always runs off the memory.
  lemma LastCellTurns(s: State)
    requires |s.mem| == 100 && s.pc == 99
    ensures Round(s) == After(Step(s)) <==> Opcode(s.mem[99]) != 0 && !Taken(s, s.mem[99])
  {
    ExecuteAnywhere(s, s.mem[99], 100, s.clock + 1);
    assert Execute(s, s.mem[99]).Halted? <==> Opcode(s.mem[99]) == 0;
    assert !Taken(s, s.mem[99]) || Opcode(s.mem[99]) != 0;
    hide Execute, Taken, Opcode;
  }

  // Exactly when one turn of the two-fetch machine is two turns of the one-fetch machine.
  lemma RoundIsTwoStepsExactly(s: State)
    requires |s.mem| == 100
    ensures Round(s) == After(Step(s)) <==> Agrees(s)
  {
    hide Step, Round, Agrees, Execute, Opcode, Address, JumpAgrees, StoreAgrees;
    if s.pc == 99 {
      AgreesAtTheEnd(s);
    } else if 0 <= s.pc < 99 {
      AgreesInside(s);
    } else {
      OutsideTurns(s);
      AgreesOutside(s);
    }
  }

  lemma AgreesOutside(s: State)
    requires |s.mem| == 100 && !(0 <= s.pc < 100)
    ensures Agrees(s)
  {
  }

  lemma AgreesAtTheEnd(s: State)
    requires |s.mem| == 100 && s.pc == 99
    ensures Round(s) == After(Step(s)) <==> Agrees(s)
  {
    hide Step, Round, JumpAgrees, StoreAgrees;
    LastCellTurns(s);
  }

  lemma AgreesInside(s: State)
    requires |s.mem| == 100 && 0 <= s.pc < 99
    ensures Round(s) == After(Step(s)) <==> Agrees(s)
  {
    hide Step, Round, Execute, JumpAgrees, StoreAgrees;
    var ir := s.mem[s.pc];
    if Opcode(ir) == 0 {
      HaltCostsAFetch(s);
    } else if Taken(s, ir) {
      BranchTurns(s);
      NeighboursAgree(s, Address(ir), s.mem[s.pc + 1], s.clock + 2);
    } else if Opcode(ir) == 3 && Address(ir) == s.pc + 1 {
      StoreTurns(s);
    } else {
      RoundIsTwoSteps(s);
    }
  }

  lemma OutsideTurns(s: State)
    requires |s.mem| == 100 && !(0 <= s.pc < 100)
    ensures Round(s) == After(Step(s)) == Fault
  {
  }

  // A halt in the first slot: both machines halt in the same state but for PC and clock, which have
  // counted the second fetch.
  lemma HaltCostsAFetch(s: State)
    requires |s.mem| == 100 && 0 <= s.pc < 99 && Opcode(s.mem[s.pc]) == 0
    ensures Step(s).Halted?
    ensures var x := Step(s).s; Round(s) == Halted(x.(pc := x.pc + 1, clock := x.clock + 1))
  {
  }

  // Behind a taken branch the machines part unless one of the two words they go on with jumps.
  lemma BranchNeedsAnotherJump(s: State)
    requires |s.mem| == 100 && 0 <= s.pc < 99 && Taken(s, s.mem[s.pc])
    requires !Taken(s, s.mem[s.pc + 1]) && !Taken(s, s.mem[Address(s.mem[s.pc])])
    ensures Round(s) != After(Step(s))
  {
    RoundIsTwoStepsExactly(s);
  }

  ghost predicate SafeRounds(s: State, n: nat)
    requires |s.mem| == 100
  {
    forall k: nat :: k < n && Rounds(s, k).Running? ==> Agrees(Rounds(s, k).s)
  }

  lemma OneMoreStep(s: State, n: nat)
    requires |s.mem| == 100
    ensures Steps(s, n + 1) == After(Steps(s, n))
  {
    hide Step, After;
  }

  lemma OneMoreRound(s: State, n: nat)
    requires |s.mem| == 100 && Rounds(s, n).Running?
    ensures Rounds(s, n + 1) == Round(Rounds(s, n).s)
  {
    hide Round;
  }

  lemma TwoMoreSteps(s: State, m: nat)
    requires |s.mem| == 100
    ensures Steps(s, m + 2) == After(After(Steps(s, m)))
  {
    hide Steps, Step, After, Execute;
    OneMoreStep(s, m);
    OneMoreStep(s, m + 1);
  }

  // Whole runs: as long as every round agrees, n rounds are exactly 2n steps.
  lemma {:induction false} SafeRunsAgree(s: State, n: nat)
    requires |s.mem| == 100 && SafeRounds(s, n)
    ensures Rounds(s, n) == Steps(s, 2 * n)
    decreases n
  {
    hide Step, Round, Agrees;
    if n > 0 {
      SafeRunsAgree(s, n - 1);
      TwoMoreSteps(s, 2 * n - 2);
      var o := Rounds(s, n - 1);
      if o.Running? {
        RoundIsTwoStepsExactly(o.s);
      }
    }
  }

  // And only then: two runs that stay together turn by turn meet no round that disagrees.
  lemma StayingTogetherMeansSafe(s: State, n: nat)
    requires |s.mem| == 100 && forall k: nat :: k <= n ==> Rounds(s, k) == Steps(s, 2 * k)
    ensures SafeRounds(s, n)
  {
    hide Step, Round, Agrees, Steps, Rounds, After, Execute;
    forall k: nat | k < n && Rounds(s, k).Running?
      ensures Agrees(Rounds(s, k).s)
    {
      assert Rounds(s, k) == Steps(s, 2 * k) && Rounds(s, k + 1) == Steps(s, 2 * (k + 1));
      TogetherMeansAgrees(s, k);
    }
  }

  lemma TogetherMeansAgrees(s: State, k: nat)
    requires |s.mem| == 100 && Rounds(s, k).Running?
    requires Rounds(s, k) == Steps(s, 2 * k) && Rounds(s, k + 1) == Steps(s, 2 * (k + 1))
    ensures Agrees(Rounds(s, k).s)
  {
    hide Step, Round, Agrees, Steps, Rounds, Execute;
    OneMoreRound(s, k);
    TwoMoreSteps(s, 2 * k);
    RoundIsTwoStepsExactly(Rounds(s, k).s);
  }

  // When a safe run comes to a halt in a first slot, memory, AC, input and output are the same as on
  // the one-fetch machine; the clock and the program counter have counted the extra fetch.
  lemma FirstSlotHalt(s: State, n: nat)
    requires |s.mem| == 100 && SafeRounds(s, n)
    requires Rounds(s, n).Running? && 0 <= Rounds(s, n).s.pc < 99
    requires Opcode(Rounds(s, n).s.mem[Rounds(s, n).s.pc]) == 0
    ensures Steps(s, 2 * n + 1).Halted?
    ensures var x := Steps(s, 2 * n + 1).s;
            Rounds(s, n + 1) == Halted(x.(pc := x.pc + 1, clock := x.clock + 1))
  {
    hide Step, Round, Agrees, Steps, Rounds, Execute;
    SafeRunsAgree(s, n);
    OneMoreStep(s, 2 * n);
    OneMoreRound(s, n);
    HaltCostsAFetch(Rounds(s, n).s);
  }
}
