// Mission3-3.asm and Mission3-2.asm on the one-fetch SJU-CPU, over mathematical integers.
module SjuPrograms {
  import opened SjuCpu

  lemma {:induction false} StepsAdd(s: State, m: nat, n: nat)
    requires |s.mem| == 100 && Steps(s, m).Running?
    ensures Steps(s, m + n) == Steps(Steps(s, m).s, n)
    decreases n
  {
    hide Steps, Step, After;
    var t := Steps(s, m).s;
    if n == 0 {
      NoSteps(t);
    } else {
      StepsAdd(s, m, n - 1);
      OneMoreStep(s, m + n - 1);
      OneMoreStep(t, n - 1);
    }
  }

  lemma NoSteps(s: State)
    requires |s.mem| == 100
    ensures Steps(s, 0) == Running(s)
  {
  }

  lemma Advance(s: State, n: nat, t: State, u: State)
    requires |s.mem| == 100 && Steps(s, n) == Running(t) && Step(t) == Running(u)
    ensures Steps(s, n + 1) == Running(u)
  {
  }

  lemma Halts(s: State, n: nat, t: State, u: State)
    requires |s.mem| == 100 && Steps(s, n) == Running(t) && Step(t) == Halted(u)
    ensures Steps(s, n + 1) == Halted(u)
  {
  }

  // ----- Mission3-3: the sum of all integers between two inputs -----

  const RANGE_CODE: seq<int> :=
    [352, 901, 350, 901, 351, 250, 814, 552, 151, 352] +
    [551, 160, 351, 605, 723, 552, 150, 352, 550, 160] +
    [350, 551, 605, 552, 150, 902, 0]

  // The loaded image: the program, cells 27..59 zero, the constant 1 in cell 60, the rest zero.
  ghost predicate RangeImage(mem: seq<int>): (b: bool)
    ensures b ==> |mem| == 100
  {
    && |mem| == 100
    && (forall i :: 0 <= i < 27 ==> |RANGE_CODE| == 27 && mem[i] == RANGE_CODE[i])
    && mem[60] == 1
  }

  lemma RangeCells(mem: seq<int>)
    requires RangeImage(mem)
    ensures mem[0] == 352 && mem[1] == 901 && mem[2] == 350 && mem[3] == 901 && mem[4] == 351
    ensures mem[5] == 250 && mem[6] == 814 && mem[7] == 552 && mem[8] == 151 && mem[9] == 352
    ensures mem[10] == 551 && mem[11] == 160 && mem[12] == 351 && mem[13] == 605 && mem[14] == 723
    ensures mem[15] == 552 && mem[16] == 150 && mem[17] == 352 && mem[18] == 550 && mem[19] == 160
    ensures mem[20] == 350 && mem[21] == 551 && mem[22] == 605 && mem[23] == 552 && mem[24] == 150
    ensures mem[25] == 902 && mem[26] == 0 && mem[60] == 1
  {
    assert |RANGE_CODE| == 27;
  }

  // At the loop head: x and y are the moving bounds, acc what has been summed.
  ghost predicate AtLoop(s: State, x: int, y: int, acc: int): (b: bool)
    ensures b ==> |s.mem| == 100
  {
    && RangeImage(s.mem) && s.pc == 5 && s.ac == y
    && s.mem[50] == x && s.mem[51] == y && s.mem[52] == acc
  }

  // The program does not write into itself.
  lemma RangeImageKept(mem: seq<int>, x: int, y: int, acc: int)
    requires RangeImage(mem)
    ensures RangeImage(mem[50 := x][51 := y][52 := acc])
  {
  }

  function LoopState(s: State, x: int, y: int, acc: int, steps: nat): State
    requires |s.mem| == 100
  {
    s.(mem := s.mem[50 := x][51 := y][52 := acc], ac := y, pc := 5, clock := s.clock + steps)
  }

  // While the second number is the smaller one it is added and moves up.
  lemma LowerTurn(s: State, x: int, y: int, acc: int)
    requires AtLoop(s, x, y, acc) && y < x
    ensures Steps(s, 9) == Running(LoopState(s, x, y + 1, acc + y, 9))
    ensures AtLoop(LoopState(s, x, y + 1, acc + y, 9), x, y + 1, acc + y)
  {
    hide RangeImage, Steps;
    var m := s.mem;
    RangeCells(m);
    RangeImageKept(m, x, y + 1, acc + y);
    NoSteps(s);
    var t1 := s.(ac := y - x, pc := 6, clock := s.clock + 1);
    Advance(s, 0, s, t1);
    var t2 := s.(ac := y - x, pc := 7, clock := s.clock + 2);
    Advance(s, 1, t1, t2);
    var t3 := s.(ac := acc, pc := 8, clock := s.clock + 3);
    Advance(s, 2, t2, t3);
    var t4 := s.(ac := acc + y, pc := 9, clock := s.clock + 4);
    Advance(s, 3, t3, t4);
    var m1 := m[52 := acc + y];
    var t5 := s.(mem := m1, ac := acc + y, pc := 10, clock := s.clock + 5);
    Advance(s, 4, t4, t5);
    var t6 := s.(mem := m1, ac := y, pc := 11, clock := s.clock + 6);
    Advance(s, 5, t5, t6);
    var t7 := s.(mem := m1, ac := y + 1, pc := 12, clock := s.clock + 7);
    Advance(s, 6, t6, t7);
    var m2 := m1[51 := y + 1];
    var t8 := s.(mem := m2, ac := y + 1, pc := 13, clock := s.clock + 8);
    Advance(s, 7, t7, t8);
    var t9 := s.(mem := m2, ac := y + 1, pc := 5, clock := s.clock + 9);
    Advance(s, 8, t8, t9);
  }

  // While the second number is the larger one the first is added and moves up.
  lemma UpperTurn(s: State, x: int, y: int, acc: int)
    requires AtLoop(s, x, y, acc) && x < y
    ensures Steps(s, 11) == Running(LoopState(s, x + 1, y, acc + x, 11))
    ensures AtLoop(LoopState(s, x + 1, y, acc + x, 11), x + 1, y, acc + x)
  {
    hide RangeImage, Steps;
    var m := s.mem;
    RangeCells(m);
    RangeImageKept(m, x + 1, y, acc + x);
    NoSteps(s);
    var t1 := s.(ac := y - x, pc := 6, clock := s.clock + 1);
    Advance(s, 0, s, t1);
    var t2 := s.(ac := y - x, pc := 14, clock := s.clock + 2);
    Advance(s, 1, t1, t2);
    var t3 := s.(ac := y - x, pc := 15, clock := s.clock + 3);
    Advance(s, 2, t2, t3);
    var t4 := s.(ac := acc, pc := 16, clock := s.clock + 4);
    Advance(s, 3, t3, t4);
    var t5 := s.(ac := acc + x, pc := 17, clock := s.clock + 5);
    Advance(s, 4, t4, t5);
    var m1 := m[52 := acc + x];
    var t6 := s.(mem := m1, ac := acc + x, pc := 18, clock := s.clock + 6);
    Advance(s, 5, t5, t6);
    var t7 := s.(mem := m1, ac := x, pc := 19, clock := s.clock + 7);
    Advance(s, 6, t6, t7);
    var t8 := s.(mem := m1, ac := x + 1, pc := 20, clock := s.clock + 8);
    Advance(s, 7, t7, t8);
    var m2 := m1[50 := x + 1];
    var t9 := s.(mem := m2, ac := x + 1, pc := 21, clock := s.clock + 9);
    Advance(s, 8, t8, t9);
    var t10 := s.(mem := m2, ac := y, pc := 22, clock := s.clock + 10);
    Advance(s, 9, t9, t10);
    var t11 := s.(mem := m2, ac := y, pc := 5, clock := s.clock + 11);
    Advance(s, 10, t10, t11);
  }

  lemma RangeFinish(s: State, x: int, acc: int)
    requires AtLoop(s, x, x, acc)
    ensures Steps(s, 7) == Halted(s.(ac := acc + x, pc := 27, clock := s.clock + 7, output := s.output + [acc + x]))
  {
    hide RangeImage, Steps;
    RangeCells(s.mem);
    NoSteps(s);
    var t1 := s.(ac := 0, pc := 6, clock := s.clock + 1);
    Advance(s, 0, s, t1);
    var t2 := s.(ac := 0, pc := 14, clock := s.clock + 2);
    Advance(s, 1, t1, t2);
    var t3 := s.(ac := 0, pc := 23, clock := s.clock + 3);
    Advance(s, 2, t2, t3);
    var t4 := s.(ac := acc, pc := 24, clock := s.clock + 4);
    Advance(s, 3, t3, t4);
    var t5 := s.(ac := acc + x, pc := 25, clock := s.clock + 5);
    Advance(s, 4, t4, t5);
    var t6 := s.(ac := acc + x, pc := 26, clock := s.clock + 6, output := s.output + [acc + x]);
    Advance(s, 5, t5, t6);
    Halts(s, 6, t6, s.(ac := acc + x, pc := 27, clock := s.clock + 7, output := s.output + [acc + x]));
  }

  // lo + (lo + 1) + ... + hi
  ghost function SumRange(lo: int, hi: int): int
    decreases hi - lo
  {
    if lo > hi then 0 else lo + SumRange(lo + 1, hi)
  }

  // From the loop head to the halt.
  lemma {:induction false} LowerRuns(s: State, x: int, y: int, acc: int, n: nat)
    requires AtLoop(s, x, y, acc) && y <= x && n == 7 + 9 * (x - y)
    ensures var o := Steps(s, n);
            && o.Halted? && o.s.clock == s.clock + n && o.s.input == s.input
            && o.s.output == s.output + [acc + SumRange(y, x)]
    decreases x - y
  {
    hide AtLoop, Steps, Step;
    if x == y {
      RangeFinish(s, x, acc);
      assert SumRange(x + 1, x) == 0;
    } else {
      LowerTurn(s, x, y, acc);
      LowerRuns(LoopState(s, x, y + 1, acc + y, 9), x, y + 1, acc + y, n - 9);
      StepsAdd(s, 9, n - 9);
    }
  }

  lemma {:induction false} UpperRuns(s: State, x: int, y: int, acc: int, n: nat)
    requires AtLoop(s, x, y, acc) && x <= y && n == 7 + 11 * (y - x)
    ensures var o := Steps(s, n);
            && o.Halted? && o.s.clock == s.clock + n && o.s.input == s.input
            && o.s.output == s.output + [acc + SumRange(x, y)]
    decreases y - x
  {
    hide AtLoop, Steps, Step;
    if x == y {
      RangeFinish(s, x, acc);
      assert SumRange(x + 1, x) == 0;
    } else {
      UpperTurn(s, x, y, acc);
      UpperRuns(LoopState(s, x + 1, y, acc + x, 11), x + 1, y, acc + x, n - 11);
      StepsAdd(s, 11, n - 11);
    }
  }

  lemma RangeStart(mem: seq<int>, a: int, b: int, rest: seq<int>)
    requires RangeImage(mem)
    ensures var s := State(mem, 0, 0, 0, [a, b] + rest, []);
            var t := State(mem[52 := 0][50 := a][51 := b], b, 5, 5, rest, []);
            Steps(s, 5) == Running(t) && AtLoop(t, a, b, 0)
  {
    hide RangeImage, Steps;
    RangeCells(mem);
    RangeImageKept(mem, a, b, 0);
    var s := State(mem, 0, 0, 0, [a, b] + rest, []);
    assert mem[52 := 0][50 := a][51 := b] == mem[50 := a][51 := b][52 := 0];
    var m0 := mem[52 := 0];
    var m1 := m0[50 := a];
    assert ([a, b] + rest)[1..] == [b] + rest && ([b] + rest)[1..] == rest;
    NoSteps(s);
    var t1 := State(m0, 0, 1, 1, [a, b] + rest, []);
    Advance(s, 0, s, t1);
    var t2 := State(m0, a, 2, 2, [b] + rest, []);
    Advance(s, 1, t1, t2);
    var t3 := State(m1, a, 3, 3, [b] + rest, []);
    Advance(s, 2, t2, t3);
    var t4 := State(m1, b, 4, 4, rest, []);
    Advance(s, 3, t3, t4);
    Advance(s, 4, t4, State(m1[51 := b], b, 5, 5, rest, []));
  }

  // For every pair of inputs the program halts, after exactly this many turns, having written the sum
  // of all integers from the smaller to the larger.
  lemma RangeProgramSums(mem: seq<int>, a: int, b: int, rest: seq<int>)
    requires RangeImage(mem)
    ensures var n := if b <= a then 12 + 9 * (a - b) else 12 + 11 * (b - a);
            var o := Steps(State(mem, 0, 0, 0, [a, b] + rest, []), n);
            && o.Halted? && o.s.clock == n && o.s.input == rest
            && o.s.output == [SumRange(if b <= a then b else a, if b <= a then a else b)]
  {
    hide RangeImage, AtLoop, Steps, Step;
    RangeStart(mem, a, b, rest);
    var s := State(mem, 0, 0, 0, [a, b] + rest, []);
    var t := State(mem[52 := 0][50 := a][51 := b], b, 5, 5, rest, []);
    if b <= a {
      LowerRuns(t, a, b, 0, 7 + 9 * (a - b));
      StepsAdd(s, 5, 7 + 9 * (a - b));
    } else {
      UpperRuns(t, a, b, 0, 7 + 11 * (b - a));
      StepsAdd(s, 5, 7 + 11 * (b - a));
    }
  }

  // ----- Mission3-2: the sum 1 + ... + n -----

  const COUNT_CODE: seq<int> :=
    [330, 901, 807, 530, 240, 902, 0, 330, 240, 716] +
    [331, 530, 131, 330, 531, 608, 530, 902, 0]

  // The loaded image: the program, zeros, and the constant 1 in cell 40.
  ghost predicate CountImage(mem: seq<int>): (b: bool)
    ensures b ==> |mem| == 100
  {
    && |mem| == 100
    && (forall i :: 0 <= i < 19 ==> |COUNT_CODE| == 19 && mem[i] == COUNT_CODE[i])
    && mem[40] == 1
  }

  lemma CountCells(mem: seq<int>)
    requires CountImage(mem)
    ensures mem[0] == 330 && mem[1] == 901 && mem[2] == 807 && mem[3] == 530 && mem[4] == 240
    ensures mem[5] == 902 && mem[6] == 0 && mem[7] == 330 && mem[8] == 240 && mem[9] == 716
    ensures mem[10] == 331 && mem[11] == 530 && mem[12] == 131 && mem[13] == 330 && mem[14] == 531
    ensures mem[15] == 608 && mem[16] == 530 && mem[17] == 902 && mem[18] == 0 && mem[40] == 1
  {
    assert |COUNT_CODE| == 19;
  }

  // At the loop head with the counter in AC and the running sum in cell 30.
  ghost predicate Counting(s: State, i: int, acc: int): (b: bool)
    ensures b ==> |s.mem| == 100
  {
    CountImage(s.mem) && s.pc == 8 && s.ac == i && s.mem[30] == acc
  }

  lemma CountImageKept(mem: seq<int>, i: int, acc: int)
    requires CountImage(mem)
    ensures CountImage(mem[31 := i][30 := acc])
  {
  }

  function CountState(s: State, i: int, acc: int): State
    requires |s.mem| == 100
  {
    s.(mem := s.mem[31 := i][30 := acc], ac := i, pc := 8, clock := s.clock + 8)
  }

  lemma CountStays(s: State, i: int, acc: int, j: int, sum: int)
    requires Counting(s, i, acc)
    ensures Counting(CountState(s, j, sum), j, sum)
  {
    hide CountImage;
    CountImageKept(s.mem, j, sum);
  }

  lemma CountTurn(s: State, i: int, acc: int)
    requires Counting(s, i, acc) && i != 1
    ensures Steps(s, 8) == Running(CountState(s, i - 1, acc + (i - 1)))
  {
    hide CountImage, Steps;
    CountCells(s.mem);
    var j := i - 1;
    var m1 := s.mem[31 := j];
    NoSteps(s);
    var t1 := s.(ac := j, pc := 9, clock := s.clock + 1);
    Advance(s, 0, s, t1);
    var t2 := s.(ac := j, pc := 10, clock := s.clock + 2);
    Advance(s, 1, t1, t2);
    var t3 := s.(mem := m1, ac := j, pc := 11, clock := s.clock + 3);
    Advance(s, 2, t2, t3);
    CountTurnEnds(s, t3, i, acc);
  }

  lemma CountStateIs(s: State, t: State, i: int, acc: int)
    requires |s.mem| == 100
    requires t == s.(mem := s.mem[31 := i][30 := acc], ac := i, pc := 8, clock := s.clock + 8)
    ensures t == CountState(s, i, acc)
  {
  }

  // The second half of a turn: the counter just stored is added to the sum.
  lemma CountTurnEnds(s: State, t3: State, i: int, acc: int)
    requires Counting(s, i, acc) && Steps(s, 3) == Running(t3)
    requires t3 == s.(mem := s.mem[31 := i - 1], ac := i - 1, pc := 11, clock := s.clock + 3)
    ensures Steps(s, 8) == Running(CountState(s, i - 1, acc + (i - 1)))
  {
    hide CountImage, CountState, Steps, Step;
    CountTurnAdds(s, t3, i, acc);
    CountTurnLoops(s, i, acc);
  }

  lemma CountTurnAdds(s: State, t3: State, i: int, acc: int)
    requires Counting(s, i, acc) && Steps(s, 3) == Running(t3)
    requires t3 == s.(mem := s.mem[31 := i - 1], ac := i - 1, pc := 11, clock := s.clock + 3)
    ensures Steps(s, 5) == Running(s.(mem := s.mem[31 := i - 1], ac := acc + (i - 1), pc := 13, clock := s.clock + 5))
  {
    hide CountImage, Steps;
    CountCells(s.mem);
    var m1 := s.mem[31 := i - 1];
    assert m1[30] == acc && m1[31] == i - 1 && m1[11] == 530 && m1[12] == 131;
    var t4 := s.(mem := m1, ac := acc, pc := 12, clock := s.clock + 4);
    Advance(s, 3, t3, t4);
    Advance(s, 4, t4, s.(mem := m1, ac := acc + (i - 1), pc := 13, clock := s.clock + 5));
  }

  lemma CountTurnLoops(s: State, i: int, acc: int)
    requires Counting(s, i, acc)
    requires Steps(s, 5) == Running(s.(mem := s.mem[31 := i - 1], ac := acc + (i - 1), pc := 13, clock := s.clock + 5))
    ensures Steps(s, 8) == Running(CountState(s, i - 1, acc + (i - 1)))
  {
    hide CountImage, CountState, Steps;
    CountCells(s.mem);
    var j := i - 1;
    var sum := acc + j;
    var m2 := s.mem[31 := j][30 := sum];
    assert s.mem[31 := j][13] == 330 && m2[31] == j && m2[14] == 531 && m2[15] == 608;
    var t5 := s.(mem := s.mem[31 := j], ac := sum, pc := 13, clock := s.clock + 5);
    var t6 := s.(mem := m2, ac := sum, pc := 14, clock := s.clock + 6);
    Advance(s, 5, t5, t6);
    var t7 := s.(mem := m2, ac := j, pc := 15, clock := s.clock + 7);
    Advance(s, 6, t6, t7);
    var t8 := s.(mem := m2, ac := j, pc := 8, clock := s.clock + 8);
    Advance(s, 7, t7, t8);
    CountStateIs(s, t8, j, sum);
  }

  lemma CountFinish(s: State, acc: int)
    requires Counting(s, 1, acc)
    ensures Steps(s, 5) == Halted(s.(ac := acc, pc := 19, clock := s.clock + 5, output := s.output + [acc]))
  {
    hide CountImage, Steps;
    CountCells(s.mem);
    NoSteps(s);
    var t1 := s.(ac := 0, pc := 9, clock := s.clock + 1);
    Advance(s, 0, s, t1);
    var t2 := s.(ac := 0, pc := 16, clock := s.clock + 2);
    Advance(s, 1, t1, t2);
    var t3 := s.(ac := acc, pc := 17, clock := s.clock + 3);
    Advance(s, 2, t2, t3);
    var t4 := s.(ac := acc, pc := 18, clock := s.clock + 4, output := s.output + [acc]);
    Advance(s, 3, t3, t4);
    Halts(s, 4, t4, s.(ac := acc, pc := 19, clock := s.clock + 5, output := s.output + [acc]));
  }

  lemma {:induction false} CountRuns(s: State, i: nat, acc: int)
    requires Counting(s, i, acc) && i >= 1
    ensures var o := Steps(s, 8 * i - 3);
            && o.Halted? && o.s.clock == s.clock + 8 * i - 3 && o.s.input == s.input
            && o.s.output == s.output + [acc + SumRange(1, i - 1)]
    decreases i
  {
    hide Counting, Steps, Step;
    if i == 1 {
      CountFinish(s, acc);
    } else {
      CountTurn(s, i, acc);
      CountStays(s, i, acc, i - 1, acc + (i - 1));
      CountRuns(CountState(s, i - 1, acc + (i - 1)), i - 1, acc + (i - 1));
      StepsAdd(s, 8, 8 * (i - 1) - 3);
      SumRangeTop(1, i - 1);
    }
  }

  lemma {:induction false} SumRangeTop(lo: int, hi: int)
    requires lo <= hi
    ensures SumRange(lo, hi) == SumRange(lo, hi - 1) + hi
    decreases hi - lo
  {
    if lo < hi {
      SumRangeTop(lo + 1, hi);
    }
  }

  lemma {:induction false} Gauss(n: nat)
    ensures 2 * SumRange(1, n) == n * (n + 1)
    decreases n
  {
    if n > 0 {
      Gauss(n - 1);
      SumRangeTop(1, n);
      assert (n - 1) * n + 2 * n == n * (n + 1);
    }
  }

  function CountStart(mem: seq<int>, n: int, rest: seq<int>): State {
    State(mem, 0, 0, 0, [n] + rest, [])
  }

  lemma CountEnters(mem: seq<int>, n: int, rest: seq<int>)
    requires CountImage(mem) && n >= 0
    ensures var t := State(mem[30 := 0][30 := n], n, 8, 4, rest, []);
            Steps(CountStart(mem, n, rest), 4) == Running(t) && Counting(t, n, n)
  {
    hide CountImage, Steps;
    CountCells(mem);
    CountImageKept(mem, mem[31], n);
    assert mem[30 := 0][30 := n] == mem[31 := mem[31]][30 := n];
    var s, m0 := CountStart(mem, n, rest), mem[30 := 0];
    assert ([n] + rest)[1..] == rest;
    NoSteps(s);
    var t1 := State(m0, 0, 1, 1, [n] + rest, []);
    Advance(s, 0, s, t1);
    var t2 := State(m0, n, 2, 2, rest, []);
    Advance(s, 1, t1, t2);
    var t3 := State(m0, n, 7, 3, rest, []);
    Advance(s, 2, t2, t3);
    Advance(s, 3, t3, State(m0[30 := n], n, 8, 4, rest, []));
  }

  // For n >= 1 the program halts with clock exactly 8n + 1, having written 1 + ... + n = n(n+1)/2.
  lemma CountProgramSums(mem: seq<int>, n: int, rest: seq<int>)
    requires CountImage(mem) && n >= 1
    ensures var o := Steps(CountStart(mem, n, rest), 8 * n + 1);
            && o.Halted? && o.s.clock == 8 * n + 1 && o.s.input == rest
            && o.s.output == [SumRange(1, n)] && 2 * SumRange(1, n) == n * (n + 1)
  {
    hide CountImage, Counting, Steps, Step;
    CountEnters(mem, n, rest);
    var t := State(mem[30 := 0][30 := n], n, 8, 4, rest, []);
    CountRuns(t, n, n);
    StepsAdd(CountStart(mem, n, rest), 4, 8 * n - 3);
    SumRangeTop(1, n);
    Gauss(n);
  }

  // A negative input is answered with -1.
  lemma CountProgramRejects(mem: seq<int>, n: int, rest: seq<int>)
    requires CountImage(mem) && n < 0
    ensures var o := Steps(CountStart(mem, n, rest), 7);
            o.Halted? && o.s.clock == 7 && o.s.output == [-1]
  {
    hide CountImage, Steps;
    CountCells(mem);
    var s, m0 := CountStart(mem, n, rest), mem[30 := 0];
    assert ([n] + rest)[1..] == rest;
    NoSteps(s);
    var t1 := State(m0, 0, 1, 1, [n] + rest, []);
    Advance(s, 0, s, t1);
    var t2 := State(m0, n, 2, 2, rest, []);
    Advance(s, 1, t1, t2);
    var t3 := State(m0, n, 3, 3, rest, []);
    Advance(s, 2, t2, t3);
    var t4 := State(m0, 0, 4, 4, rest, []);
    Advance(s, 3, t3, t4);
    var t5 := State(m0, -1, 5, 5, rest, []);
    Advance(s, 4, t4, t5);
    var t6 := State(m0, -1, 6, 6, rest, [-1]);
    Advance(s, 5, t5, t6);
    Halts(s, 6, t6, State(m0, -1, 7, 7, rest, [-1]));
  }

  lemma {:induction false} CountsDownForever(s: State, i: int, acc: int, k: nat)
    requires Counting(s, i, acc) && i <= 0
    ensures Steps(s, 8 * k).Running?
    decreases k
  {
    hide Counting, CountState, Steps, Step;
    if k == 0 {
      NoSteps(s);
    } else {
      CountTurn(s, i, acc);
      CountStays(s, i, acc, i - 1, acc + (i - 1));
      CountsDownForever(CountState(s, i - 1, acc + (i - 1)), i - 1, acc + (i - 1), k - 1);
      StepsAdd(s, 8, 8 * k - 8);
    }
  }

  lemma {:induction false} EndedStaysEnded(s: State, m: nat, n: nat)
    requires |s.mem| == 100 && m <= n && !Steps(s, m).Running?
    ensures Steps(s, n) == Steps(s, m)
    decreases n
  {
    if m < n {
      EndedStaysEnded(s, m, n - 1);
    }
  }

  // Zero is the one input on which the program never ends.
  lemma CountProgramHalts(mem: seq<int>, n: int, rest: seq<int>)
    requires CountImage(mem)
    ensures (exists k :: Steps(CountStart(mem, n, rest), k).Halted?) <==> n != 0
  {
    hide CountImage, Counting, Steps, Step;
    var s := CountStart(mem, n, rest);
    if n >= 1 {
      CountProgramSums(mem, n, rest);
    } else if n < 0 {
      CountProgramRejects(mem, n, rest);
    } else {
      CountEnters(mem, 0, rest);
      var t := State(mem[30 := 0][30 := 0], 0, 8, 4, rest, []);
      forall k: nat ensures !Steps(s, k).Halted? {
        CountsDownForever(t, 0, 0, k);
        StepsAdd(s, 4, 8 * k);
        if Steps(s, k).Halted? {
          EndedStaysEnded(s, k, 4 + 8 * k);
        }
      }
    }
  }
}
