/** Whole programs run through `Execute`, the function the module-level `interpret` computes:
    the four checks of test.py and the edge cases of unbalanced brackets and stray characters. */
module Examples {
  import opened Sanitizer
  import opened Semantics
  import opened Loops
  import opened Interpreters

  /** Python's `c * n` on a one-character string. */
  function Repeat(c: char, n: nat): (r: string)
    ensures |r| == n && forall k :: 0 <= k < n ==> r[k] == c
  {
    seq(n, _ => c)
  }

  /** A run of `k` pluses adds `k` to the current cell in `k` iterations. */
  lemma {:induction false} PlusRun(s: Session, k: nat)
    requires s.Valid() && s.depth == 0 && 0 <= s.ip && s.ip + k <= |s.code|
    requires forall p :: s.ip <= p < s.ip + k ==> s.code[p] == '+'
    ensures Steps(s, k) == s.(tape := s.tape[s.dp := s.Cell() + k], ip := s.ip + k)
    decreases k
  {
    if k == 0 {
      assert s.tape[s.dp := s.Cell()] == s.tape;
    } else {
      StepPlus(s);
      var t := Step(s);
      PlusRun(t, k - 1);
      assert Steps(s, k) == Steps(t, k - 1);
    }
  }

  ghost predicate IsEchoLoop(code: string, b: int) {
    0 <= b && b + 4 <= |code| &&
    code[b] == '[' && code[b + 1] == ',' && code[b + 2] == '.' && code[b + 3] == ']'
  }

  lemma EchoLoopMatches(code: string, b: int)
    requires IsEchoLoop(code, b)
    ensures IsMatch(code, b, b + 3)
  {
    assert Balance(code, b, b) == 0;
    assert Balance(code, b, b + 1) == 1;
    assert Balance(code, b, b + 2) == 1;
    assert Balance(code, b, b + 3) == 1;
    assert Balance(code, b, b + 4) == 0;
  }

  /** One turn of `[,.]` with input left: read a character, print it, go back to the `,`. */
  lemma EchoTurn(s: Session, b: int, n: nat)
    requires s.Valid() && s.depth == 0 && IsEchoLoop(s.code, b) && s.ip == b + 1
    requires s.input != [] && 0 < s.input[0] as int < 256 && n == 7
    ensures Steps(s, n) == s.(tape := s.tape[s.dp := s.input[0] as int], input := s.input[1..],
                              output := s.output + [s.input[0]])
  {
    var c := s.input[0];
    StepComma(s);
    var t1 := s.(tape := s.tape[s.dp := s.input[0] as int], input := s.input[1..], ip := s.ip + 1);
    StepPeriod(t1);
    PrintedChar(c);
    var t2 := t1.(output := t1.output + Printed(t1.Cell()), ip := t1.ip + 1);
    EchoLoopMatches(s.code, b);
    RepeatLoop(t2, b, n - 2);
    var f := t2.(ip := b + 1);
    StepsStep(t1, t2, n - 2, n - 1, f);
    StepsStep(s, t1, n - 1, n, f);
  }

  /** The last turn of `[,.]`: `,` stores 0, `.` prints nothing and `]` lets the loop end. */
  lemma EchoExit(s: Session, b: int, n: nat)
    requires s.Valid() && s.depth == 0 && IsEchoLoop(s.code, b) && s.ip == b + 1 && s.input == [] && n == 3
    ensures Steps(s, n) == s.(tape := s.tape[s.dp := 0], ip := b + 4)
  {
    StepComma(s);
    var t1 := s.(tape := s.tape[s.dp := 0], ip := s.ip + 1);
    assert t1.Cell() == 0 && Fetch(t1) == '.';
    StepPeriod(t1);
    var t2 := t1.(ip := b + 3);
    assert Step(t1) == t2;
    StepClose(t2);
    var t3 := t2.(ip := t2.ip + 1);
    assert Steps(t3, n - 3) == t3;
    StepsStep(t2, t3, n - 3, n - 2, t3);
    StepsStep(t1, t2, n - 2, n - 1, t3);
    StepsStep(s, t1, n - 1, n, t3);
  }

  /** Input characters that `.` prints back unchanged. */
  predicate Echoable(w: string) {
    forall k :: 0 <= k < |w| ==> 0 < w[k] as int < 256
  }

  lemma EchoableTail(w: string)
    requires Echoable(w) && w != []
    ensures Echoable(w[1..])
  {
    forall k | 0 <= k < |w| - 1 ensures 0 < w[1..][k] as int < 256 {
      assert w[1..][k] == w[k + 1];
    }
  }

  /** Where `EchoLoop` leaves a session: the input moved to the output, the cell cleared by
      the last `,` and the pointer past the `]`. */
  function EchoEnd(s: Session, b: int): Session {
    s.(tape := s.tape[s.dp := 0], ip := b + 4, output := s.output + s.input, input := [])
  }

  /** The loop `[,.]` at `b`, entered just after its `[`, echoes every pending input
      character (each with a code from 1 to 255) in seven iterations each and then leaves the
      loop on the zero that `,` stores once the input is used up. */
  lemma {:induction false} EchoLoop(s: Session, b: int, n: nat)
    requires s.Valid() && s.depth == 0 && IsEchoLoop(s.code, b) && s.ip == b + 1 && Echoable(s.input)
    requires n == 7 * |s.input| + 3
    ensures Steps(s, n) == EchoEnd(s, b)
    decreases |s.input|
  {
    if s.input == [] {
      EchoExit(s, b, n);
      assert s.output + s.input == s.output;
    } else {
      var turn := 7;
      EchoTurn(s, b, turn);
      var t := s.(tape := s.tape[s.dp := s.input[0] as int], input := s.input[1..], output := s.output + [s.input[0]]);
      EchoableTail(s.input);
      var rest := n - turn;
      EchoLoop(t, b, rest);
      StepsJoin(s, turn, rest, n, t, EchoEnd(t, b));
      EchoEndShift(s, t, b);
    }
  }

  /** Echoing the first character and then the rest ends where echoing all of it does. */
  lemma EchoEndShift(s: Session, t: Session, b: int)
    requires s.input != []
    requires t == s.(tape := s.tape[s.dp := s.input[0] as int], input := s.input[1..], output := s.output + [s.input[0]])
    ensures EchoEnd(t, b) == EchoEnd(s, b)
  {
    AppendHead(s.output, s.input);
    assert t.tape[s.dp := 0] == s.tape[s.dp := 0];
  }

  lemma AppendHead(o: string, w: string)
    requires w != []
    ensures o + [w[0]] + w[1..] == o + w
  {
    assert w == [w[0]] + w[1..];
  }

  lemma CountPrintClean(k: nat)
    ensures Cleanse(Repeat('+', k) + "-.") == Repeat('+', k) + "-."
  {
    var p := Repeat('+', k) + "-.";
    assert AllCommands(p) by {
      forall i | 0 <= i < |p| ensures IsCommand(p[i]) {
        if i < k { assert p[i] == '+'; }
      }
    }
    CleanseFixpoint(p);
  }

  ghost predicate IsCountPrint(p: string, k: nat) {
    && |p| == k + 2
    && (forall i :: 0 <= i < k ==> p[i] == '+')
    && p[k] == '-' && p[k + 1] == '.'
  }

  /** The `k + 2` iterations of `'+' * k + '-.'`: count up, count down once, print. */
  lemma CountPrintSteps(s0: Session, k: nat, n: nat) returns (s3: Session)
    requires s0.Valid() && s0.Cell() == 0 && s0.ip == 0 && s0.depth == 0 && IsCountPrint(s0.code, k)
    requires n == k + 2
    ensures Steps(s0, n) == s3
    ensures s3 == s0.(tape := s3.tape, ip := n, output := s0.output + Printed(k - 1))
  {
    PlusRun(s0, k);
    var s1 := s0.(tape := s0.tape[s0.dp := s0.Cell() + k], ip := s0.ip + k);
    StepMinus(s1);
    var s2 := s1.(tape := s1.tape[s1.dp := s1.Cell() - 1], ip := s1.ip + 1);
    StepPeriod(s2);
    s3 := s2.(output := s2.output + Printed(s2.Cell()), ip := s2.ip + 1);
    var r := n - k;
    assert Steps(s3, r - 2) == s3;
    StepsStep(s2, s3, r - 2, r - 1, s3);
    StepsStep(s1, s2, r - 1, r, s3);
    StepsJoin(s0, k, r, n, s1, s3);
  }

  /** `'+' * k + '-.'` counts the cell up to `k`, down by one, and prints it. */
  lemma CountPrint(k: nat, w: string, fuel: nat)
    requires fuel >= k + 2
    ensures var o := Execute(Repeat('+', k) + "-.", w, fuel);
      o.status == Halted && o.session.output == Printed(k - 1)
  {
    var p := Repeat('+', k) + "-.";
    CountPrintClean(k);
    assert IsCountPrint(p, k);
    var s0 := Load(Initial(), p, w);
    var n := k + 2;
    var s3 := CountPrintSteps(s0, k, n);
    RunEnded(s0, n, fuel, s3);
  }

  /** `'+' * k1 + '>' + '+' * k2 + '.<.'` is already clean, and where its commands are. */
  lemma TwoCellsCode(k1: nat, k2: nat)
    ensures var p := Repeat('+', k1) + ">" + Repeat('+', k2) + ".<.";
      && Cleanse(p) == p && |p| == k1 + k2 + 4
      && (forall i :: 0 <= i < k1 ==> p[i] == '+')
      && p[k1] == '>'
      && (forall i :: k1 + 1 <= i < k1 + 1 + k2 ==> p[i] == '+')
      && p[k1 + k2 + 1] == '.' && p[k1 + k2 + 2] == '<' && p[k1 + k2 + 3] == '.'
  {
    var p := Repeat('+', k1) + ">" + Repeat('+', k2) + ".<.";
    forall i | k1 + 1 <= i < k1 + 1 + k2 ensures p[i] == '+' {
      assert p[i] == Repeat('+', k2)[i - k1 - 1];
    }
    assert AllCommands(p) by {
      forall i | 0 <= i < |p| ensures IsCommand(p[i]) {
      }
    }
    CleanseFixpoint(p);
  }

  /** The commands layout of `'+' * k1 + '>' + '+' * k2 + '.<.'`. */
  ghost predicate IsTwoCells(p: string, k1: nat, k2: nat) {
    && |p| == k1 + k2 + 4
    && (forall i :: 0 <= i < k1 ==> p[i] == '+')
    && p[k1] == '>'
    && (forall i :: k1 + 1 <= i < k1 + 1 + k2 ==> p[i] == '+')
    && p[k1 + k2 + 1] == '.' && p[k1 + k2 + 2] == '<' && p[k1 + k2 + 3] == '.'
  }

  /** The first `k1 + 1 + k2` iterations fill cell 0 with `k1` and cell 1 with `k2`. */
  lemma TwoCellsFill(s0: Session, k1: nat, k2: nat, a: nat) returns (s3: Session)
    requires s0.tape == map[0 := 0] && s0.dp == 0 && s0.ip == 0 && s0.depth == 0
    requires IsTwoCells(s0.code, k1, k2) && a == k1 + 1 + k2
    ensures Steps(s0, a) == s3
    ensures s3 == s0.(tape := s3.tape, dp := 1, ip := a)
    ensures 0 in s3.tape && 1 in s3.tape && s3.tape[0] == k1 && s3.tape[1] == k2
  {
    PlusRun(s0, k1);
    var s1 := s0.(tape := s0.tape[s0.dp := s0.Cell() + k1], ip := s0.ip + k1);
    StepRight(s1);
    var s2 := s1.(tape := s1.tape[1 := 0], dp := 1, ip := k1 + 1);
    assert Step(s1) == s2;
    PlusRun(s2, k2);
    s3 := s2.(tape := s2.tape[s2.dp := s2.Cell() + k2], ip := s2.ip + k2);
    StepsStep(s1, s2, k2, 1 + k2, s3);
    StepsJoin(s0, k1, 1 + k2, a, s1, s3);
  }

  /** The last three iterations print cell 1, move left and print cell 0. */
  lemma TwoCellsPrint(s3: Session, k1: nat, k2: nat, m: nat)
    requires s3.Valid() && s3.dp == 1 && s3.depth == 0 && 0 in s3.tape && s3.tape[0] == k1 && s3.tape[1] == k2
    requires IsTwoCells(s3.code, k1, k2) && s3.ip == k1 + k2 + 1 && m == 3
    ensures Steps(s3, m) == s3.(dp := 0, ip := k1 + k2 + 4, output := s3.output + (Printed(k2) + Printed(k1)))
  {
    StepPeriod(s3);
    var s4 := s3.(output := s3.output + Printed(k2), ip := k1 + k2 + 2);
    StepLeft(s4);
    var s5 := s3.(dp := 0, ip := k1 + k2 + 3, output := s3.output + Printed(k2));
    assert Step(s4) == s5;
    StepPeriod(s5);
    var s6 := s3.(dp := 0, ip := k1 + k2 + 4, output := s3.output + (Printed(k2) + Printed(k1)));
    assert s3.output + Printed(k2) + Printed(k1) == s3.output + (Printed(k2) + Printed(k1));
    assert Step(s5) == s6;
    assert Steps(s6, m - 3) == s6;
    StepsStep(s5, s6, m - 3, m - 2, s6);
    StepsStep(s4, s5, m - 2, m - 1, s6);
    StepsStep(s3, s4, m - 1, m, s6);
  }

  /** All `k1 + k2 + 4` iterations of `'+' * k1 + '>' + '+' * k2 + '.<.'`. */
  lemma TwoCellsSteps(s0: Session, k1: nat, k2: nat, n: nat) returns (f: Session)
    requires s0.tape == map[0 := 0] && s0.dp == 0 && s0.ip == 0 && s0.depth == 0
    requires IsTwoCells(s0.code, k1, k2) && n == k1 + k2 + 4
    ensures Steps(s0, n) == f && f.ip == n && f.output == s0.output + (Printed(k2) + Printed(k1))
  {
    var a := k1 + 1 + k2;
    var s3 := TwoCellsFill(s0, k1, k2, a);
    var m := n - a;
    TwoCellsPrint(s3, k1, k2, m);
    f := s3.(dp := 0, ip := k1 + k2 + 4, output := s3.output + (Printed(k2) + Printed(k1)));
    StepsJoin(s0, a, m, n, s3, f);
  }

  /** `'+' * k1 + '>' + '+' * k2 + '.<.'` fills two cells and prints the second, then the first. */
  lemma TwoCells(k1: nat, k2: nat, w: string, fuel: nat)
    requires fuel >= k1 + k2 + 4
    ensures var o := Execute(Repeat('+', k1) + ">" + Repeat('+', k2) + ".<.", w, fuel);
      o.status == Halted && o.session.output == Printed(k2) + Printed(k1)
  {
    TwoCellsCode(k1, k2);
    assert IsTwoCells(Repeat('+', k1) + ">" + Repeat('+', k2) + ".<.", k1, k2);
    var s0 := Load(Initial(), Repeat('+', k1) + ">" + Repeat('+', k2) + ".<.", w);
    var n := k1 + k2 + 4;
    var f := TwoCellsSteps(s0, k1, k2, n);
    RunEnded(s0, n, fuel, f);
  }

  lemma PrintedChar(c: char)
    requires 0 < c as int < 256
    ensures Printed(c as int) == [c]
  {
  }

  /** `,.[,.]` on empty input: `,` stores 0, `.` prints nothing and the loop is skipped. */
  lemma EchoAfterReadEmpty(s0: Session, n: nat) returns (f: Session)
    requires s0.Valid() && s0.ip == 0 && s0.depth == 0 && s0.output == [] && s0.input == []
    requires |s0.code| == 6 && s0.code[0] == ',' && s0.code[1] == '.' && IsEchoLoop(s0.code, 2) && n == 7
    ensures Steps(s0, n) == f && f.ip == 6 && f.output == ""
  {
    StepComma(s0);
    var s1 := s0.(tape := s0.tape[s0.dp := 0], ip := s0.ip + 1);
    StepPeriod(s1);
    assert s1.Cell() == 0 && Printed(s1.Cell()) == [];
    var s2 := s1.(output := s1.output + Printed(s1.Cell()), ip := s1.ip + 1);
    assert s2.output == [];
    assert IsEchoLoop(s2.code, 2);
    EchoLoopMatches(s2.code, 2);
    SkipLoop(s2, 5, n - 2);
    f := s2.(ip := 5 + 1);
    StepsStep(s1, s2, n - 2, n - 1, f);
    StepsStep(s0, s1, n - 1, n, f);
  }

  /** `,.[,.]` on nonempty input: the first character is read and printed, the loop runs
      once per remaining character and then once more to find the input exhausted. */
  lemma EchoAfterReadSome(s0: Session, w: string, n: nat) returns (f: Session)
    requires s0.Valid() && s0.ip == 0 && s0.depth == 0 && s0.output == [] && s0.input == w
    requires |s0.code| == 6 && s0.code[0] == ',' && s0.code[1] == '.' && IsEchoLoop(s0.code, 2)
    requires w != [] && Echoable(w) && n == 7 * |w| - 1
    ensures Steps(s0, n) == f && f.ip == 6 && f.output == w
  {
    var c := w[0];
    StepComma(s0);
    var s1 := s0.(tape := s0.tape[s0.dp := s0.input[0] as int], input := s0.input[1..], ip := s0.ip + 1);
    StepPeriod(s1);
    PrintedChar(c);
    var s2 := s1.(output := s1.output + Printed(s1.Cell()), ip := s1.ip + 1);
    StepOpen(s2);
    var s3 := s2.(ip := s2.ip + 1);
    assert Echoable(s3.input) by {
      forall k | 0 <= k < |s3.input| ensures 0 < s3.input[k] as int < 256 {
        assert s3.input[k] == w[k + 1];
      }
    }
    assert IsEchoLoop(s3.code, 2);
    var m := 7 * |s3.input| + 3;
    EchoLoop(s3, 2, m);
    f := EchoEnd(s3, 2);
    StepsStep(s2, s3, m, m + 1, f);
    StepsStep(s1, s2, m + 1, m + 2, f);
    StepsStep(s0, s1, m + 2, n, f);
    AppendHead(s0.output, w);
  }

  /** `,.[,.]` copies its input to its output. */
  lemma EchoAfterRead(w: string, fuel: nat)
    requires Echoable(w) && fuel >= 7 * |w| + 7
    ensures var o := Execute(",.[,.]", w, fuel);
      o.status == Halted && o.session.output == w
  {
    var p := ",.[,.]";
    assert AllCommands(p);
    CleanseFixpoint(p);
    var s0 := Load(Initial(), p, w);
    assert IsEchoLoop(p, 2);
    if w == [] {
      var n := 7;
      var f := EchoAfterReadEmpty(s0, n);
      RunEnded(s0, n, fuel, f);
    } else {
      var n := 7 * |w| - 1;
      var f := EchoAfterReadSome(s0, w, n);
      RunEnded(s0, n, fuel, f);
    }
  }

  /** The `7 * |w| + 5` iterations of `+[,.]`: the `+` makes the loop run. */
  lemma EchoLoopProgramSteps(s0: Session, w: string, n: nat) returns (f: Session)
    requires s0.Valid() && s0.Cell() == 0 && s0.ip == 0 && s0.depth == 0 && s0.output == [] && s0.input == w
    requires |s0.code| == 5 && s0.code[0] == '+' && IsEchoLoop(s0.code, 1)
    requires Echoable(w) && n == 7 * |w| + 5
    ensures Steps(s0, n) == f && f.ip == 5 && f.output == w
  {
    StepPlus(s0);
    var s1 := s0.(tape := s0.tape[s0.dp := s0.Cell() + 1], ip := s0.ip + 1);
    StepOpen(s1);
    var s2 := s1.(ip := s1.ip + 1);
    var m := 7 * |s2.input| + 3;
    EchoLoop(s2, 1, m);
    f := EchoEnd(s2, 1);
    StepsStep(s1, s2, m, m + 1, f);
    StepsStep(s0, s1, m + 1, n, f);
    assert s2.output + w == w;
  }

  /** `+[,.]` copies its input to its output. */
  lemma EchoLoopProgram(w: string, fuel: nat)
    requires Echoable(w) && fuel >= 7 * |w| + 5
    ensures var o := Execute("+[,.]", w, fuel);
      o.status == Halted && o.session.output == w
  {
    var p := "+[,.]";
    assert AllCommands(p);
    CleanseFixpoint(p);
    var s0 := Load(Initial(), p, w);
    assert IsEchoLoop(p, 1);
    var n := 7 * |w| + 5;
    var f := EchoLoopProgramSteps(s0, w, n);
    RunEnded(s0, n, fuel, f);
  }

  // The four checks of test.py.

  lemma ExampleOneCell(fuel: nat)
    requires fuel >= 100
    ensures Execute(Repeat('+', 98) + "-.", "", fuel).status == Halted
    ensures Execute(Repeat('+', 98) + "-.", "", fuel).session.output == "a"
  {
    CountPrint(98, "", fuel);
  }

  lemma ExampleTwoCells(fuel: nat)
    requires fuel >= 199
    ensures Execute(Repeat('+', 97) + ">" + Repeat('+', 98) + ".<.", "", fuel).status == Halted
    ensures Execute(Repeat('+', 97) + ">" + Repeat('+', 98) + ".<.", "", fuel).session.output == "ba"
  {
    TwoCells(97, 98, "", fuel);
  }

  lemma ExampleEchoAfterRead(fuel: nat)
    requires fuel >= 49
    ensures Execute(",.[,.]", "banana", fuel).status == Halted
    ensures Execute(",.[,.]", "banana", fuel).session.output == "banana"
  {
    EchoAfterRead("banana", fuel);
  }

  lemma ExampleEchoLoop(fuel: nat)
    requires fuel >= 47
    ensures Execute("+[,.]", "banana", fuel).status == Halted
    ensures Execute("+[,.]", "banana", fuel).session.output == "banana"
  {
    EchoLoopProgram("banana", fuel);
  }

  // Edge cases.

  /** `[.`: the unmatched `[` on a zero cell scans off the end; nothing is printed. */
  lemma ExampleUnmatchedOpen(programInput: string, fuel: nat)
    requires fuel >= 2
    ensures Execute("[.", programInput, fuel).status == Halted
    ensures Execute("[.", programInput, fuel).session.output == ""
  {
    var p := "[.";
    assert AllCommands(p);
    CleanseFixpoint(p);
    var s0 := Load(Initial(), p, programInput);
    assert Balance(p, 0, 1) == 1 && Balance(p, 0, 2) == 1;
    UnmatchedOpenHalts(s0, fuel);
  }

  /** Text without commands around and inside `+-.` is dropped by the cleaner. */
  lemma StrayClean(a: string, b: string, c: string)
    requires NoCommands(a) && NoCommands(b) && NoCommands(c)
    ensures Cleanse(a + "+" + b + "-." + c) == "+-."
  {
    CleanseEmpty(a);
    assert AllCommands("+") && AllCommands("-.");
    CleanseAppendCommands(a, "+");
    assert Cleanse(a + "+") == "+";
    CleanseAppendNoise(a + "+", b);
    CleanseAppendCommands(a + "+" + b, "-.");
    assert Cleanse(a + "+" + b + "-.") == "+-.";
    CleanseAppendNoise(a + "+" + b + "-.", c);
  }

  /** Hence `a + '+' + b + '-.' + c` runs as `+-.`: the cell is back to 0 when it is printed,
      so nothing is appended. */
  lemma StrayCharacters(a: string, b: string, c: string, w: string, fuel: nat)
    requires NoCommands(a) && NoCommands(b) && NoCommands(c) && fuel >= 3
    ensures var o := Execute(a + "+" + b + "-." + c, w, fuel);
      o.status == Halted && o.session.output == ""
  {
    StrayClean(a, b, c);
    CountPrintClean(1);
    assert Repeat('+', 1) + "-." == "+-.";
    ExecuteCleansed(a + "+" + b + "-." + c, Repeat('+', 1) + "-.", w, fuel);
    CountPrint(1, w, fuel);
    assert Printed(0) == "";
  }

  lemma ExampleStrayCharacters(fuel: nat)
    requires fuel >= 3
    ensures Execute("he+llo-.world", "", fuel).status == Halted
    ensures Execute("he+llo-.world", "", fuel).session.output == ""
  {
    assert "he+llo-.world" == "he" + "+" + "llo" + "-." + "world";
    StrayCharacters("he", "llo", "world", "", fuel);
  }

  /** `+]`: the unmatched `]` on a nonzero cell scans below index 0, where Python's negative
      indexing reads the code from its end, until the pointer passes `-len(code)` and reading
      the code raises `IndexError` after five iterations. */
  lemma ExampleUnmatchedCloseRaises(programInput: string, fuel: nat)
    requires fuel >= 5
    ensures Execute("+]", programInput, fuel).status == IndexError
  {
    var p := "+]";
    assert AllCommands(p);
    CleanseFixpoint(p);
    var s0 := Load(Initial(), p, programInput);
    var s1 := Step(s0);
    assert s1.ip == 1 && s1.depth == 0 && s1.Cell() == 1;
    var s2 := Step(s1);
    assert s2.ip == 0 && s2.depth == -1;
    var s3 := Step(s2);
    assert s3.ip == -1 && s3.depth == -1;
    var s4 := Step(s3);
    assert s4.ip == -2 && s4.depth == -2;
    var s5 := Step(s4);
    assert s5.ip == -3;
    assert Steps(s0, 5) == s5 by {
      assert Steps(s0, 5) == Steps(s1, 4) == Steps(s2, 3) == Steps(s3, 2) == Steps(s4, 1) == s5;
    }
    RunSteps(s0, 5, fuel);
    assert Run(s5, fuel - 5).status == IndexError;
  }

  /** The five states that `+][` cycles through, with the cell at `n`. */
  function Cycle(n: int, phase: int, w: string): Session {
    var code := "+][";
    if phase == 0 then Session(map[0 := n], 0, code, 1, 0, "", w)
    else if phase == 1 then Session(map[0 := n], 0, code, 0, -1, "", w)
    else if phase == 2 then Session(map[0 := n], 0, code, -1, -1, "", w)
    else if phase == 3 then Session(map[0 := n], 0, code, -1, 0, "", w)
    else Session(map[0 := n], 0, code, 0, 0, "", w)
  }

  /** Each state of the cycle is running and steps to the next one; the `+` at phase 4
      starts the next round with the cell one higher. */
  lemma CycleStep(n: nat, phase: int, w: string)
    requires 0 <= phase <= 4 && (phase < 4 ==> n >= 1)
    ensures var s := Cycle(n, phase, w);
      && s.Valid() && s.Runnable()
      && Step(s) == if phase == 4 then Cycle(n + 1, 0, w) else Cycle(n, phase + 1, w)
  {
    var s := Cycle(n, phase, w);
    if phase == 0 {
      StepClose(s);
    } else if phase == 1 || phase == 2 {
      StepScan(s);
    } else if phase == 3 {
      StepOpen(s);
    } else {
      StepPlus(s);
    }
  }

  lemma {:induction false} CycleNeverHalts(n: nat, phase: int, w: string, fuel: nat)
    requires 0 <= phase <= 4 && (phase < 4 ==> n >= 1)
    ensures Run(Cycle(n, phase, w), fuel).status == OutOfFuel
    decreases fuel
  {
    var s := Cycle(n, phase, w);
    CycleStep(n, phase, w);
    RunUnfold(s, fuel);
    if fuel > 0 {
      if phase == 4 {
        CycleNeverHalts(n + 1, 0, w, fuel - 1);
      } else {
        CycleNeverHalts(n, phase + 1, w, fuel - 1);
      }
    }
  }

  /** `+][`: the backward scan from `]` wraps round to the final `[`, which ends the scan, and
      the program then runs `+]` again forever with an ever larger cell. No step budget is
      enough for it to halt. */
  lemma ExampleUnmatchedCloseNeverHalts(programInput: string, fuel: nat)
    ensures Execute("+][", programInput, fuel).status == OutOfFuel
  {
    var p := "+][";
    assert AllCommands(p);
    CleanseFixpoint(p);
    assert Load(Initial(), p, programInput) == Cycle(0, 4, programInput);
    CycleNeverHalts(0, 4, programInput, fuel);
  }

  /** The module-level `interpret` on the first check of test.py. */
  method OneCellClient() returns (out: string)
    ensures out == "a"
  {
    var status;
    status, out := Interpret(Repeat('+', 98) + "-.", fuel := 100);
    ExampleOneCell(100);
  }
}
