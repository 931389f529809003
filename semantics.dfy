/** The execution engine of `brainfuck.py` as functions on the interpreter's state: one function
    per command handler, the three per-cycle modes of the main loop, and the main loop itself
    bounded by a step budget. The class in interpreter.dfy is proved to compute exactly these. */
module Semantics {

  /** The fields of `Interpreter`. */
  datatype Session = Session(
    tape: map<int, int>,  // `_data`, the sparse tape
    dp: int,              // `_data_pointer`
    code: string,         // `_code`
    ip: int,              // `_code_pointer`
    depth: int,           // `_bracketcount`: 0 normal, > 0 forward scan, < 0 backward scan
    output: string,       // `_program_output`
    input: string)        // `_program_input`, consumed from the front
  {
    /** The tape has an entry for the cell under the data pointer, so reading it never fails. */
    predicate Valid() {
      dp in tape
    }

    function Cell(): int
      requires Valid()
    {
      tape[dp]
    }

    /** The loop guard holds and indexing the code does not raise: Python accepts
        indices from `-len(code)` up to `len(code) - 1`. */
    predicate Runnable() {
      -|code| <= ip < |code|
    }
  }

  /** The state that `Interpreter.reset` establishes. */
  function Initial(): (s: Session)
    ensures s.Valid() && s.dp == 0 && s.Cell() == 0 && s.tape.Keys == {0}
    ensures s.code == "" && s.ip == 0 && s.depth == 0 && s.output == [] && s.input == []
  {
    Session(map[0 := 0], 0, "", 0, 0, "", "")
  }

  /** `self._code[self._code_pointer]`; a negative pointer counts from the end, as in Python. */
  function Fetch(s: Session): char
    requires s.Runnable()
  {
    if s.ip >= 0 then s.code[s.ip] else s.code[|s.code| + s.ip]
  }

  // The command handlers.

  function Plus(s: Session): Session
    requires s.Valid()
  {
    s.(tape := s.tape[s.dp := s.Cell() + 1])
  }

  function Minus(s: Session): Session
    requires s.Valid()
  {
    s.(tape := s.tape[s.dp := s.Cell() - 1])
  }

  /** What `.` prints for a cell holding `v`: the character whose code point is `v` modulo
      256 (never negative, as in Python), or nothing at all when that is 0. */
  function Printed(v: int): (r: string)
    ensures |r| <= 1 && (r == [] <==> v % 256 == 0)
    ensures r != [] ==> r[0] as int == v % 256
  {
    var c := v % 256;
    if c != 0 then [c as char] else []
  }

  function Period(s: Session): Session
    requires s.Valid()
  {
    s.(output := s.output + Printed(s.Cell()))
  }

  /** `,`: the first pending input character's code point, or 0 when no input is left. */
  function Comma(s: Session): Session
    requires s.Valid()
  {
    if |s.input| > 0 then s.(tape := s.tape[s.dp := s.input[0] as int], input := s.input[1..])
    else s.(tape := s.tape[s.dp := 0])
  }

  /** `_sequester_data`: gives the cell under the data pointer an entry when it has none. */
  function Sequester(s: Session): Session {
    if s.dp in s.tape then s else s.(tape := s.tape[s.dp := 0])
  }

  function MoveRight(s: Session): Session {
    Sequester(s.(dp := s.dp + 1))
  }

  function MoveLeft(s: Session): Session {
    Sequester(s.(dp := s.dp - 1))
  }

  /** `[`: deepens the scan on a zero cell, and always while scanning. */
  function OpenBracket(s: Session): Session
    requires s.Valid()
  {
    if s.Cell() == 0 || s.depth != 0 then s.(depth := s.depth + 1) else s
  }

  /** `]`: enters (or continues) a backward scan on a nonzero cell, and always while scanning. */
  function CloseBracket(s: Session): Session
    requires s.Valid()
  {
    if s.Cell() != 0 || s.depth != 0 then s.(depth := s.depth - 1) else s
  }

  /** `_bracket_checker`: only brackets do anything. */
  function BracketChecker(s: Session): Session
    requires s.Valid() && s.Runnable()
  {
    var c := Fetch(s);
    if c == '[' then OpenBracket(s)
    else if c == ']' then CloseBracket(s)
    else s
  }

  /** `_handle_character`; `_` only prints a debugging snapshot, so it changes nothing. */
  function HandleCharacter(s: Session): Session
    requires s.Valid() && s.Runnable()
  {
    var c := Fetch(s);
    if c == '+' then Plus(s)
    else if c == '-' then Minus(s)
    else if c == '>' then MoveRight(s)
    else if c == '<' then MoveLeft(s)
    else if c == '.' then Period(s)
    else if c == ',' then Comma(s)
    else if c == '_' then s
    else BracketChecker(s)
  }

  // The three modes of one cycle of the main loop.

  /** `_normal_parsing`: run the command, then move on, backwards if a backward scan began. */
  function NormalParsing(s: Session): Session
    requires s.Valid() && s.Runnable()
  {
    var t := HandleCharacter(s);
    if t.depth >= 0 then t.(ip := t.ip + 1) else t.(ip := t.ip - 1)
  }

  /** `_forward_jump`: look at brackets only; stay put once the depth is back to 0. */
  function ForwardJump(s: Session): Session
    requires s.Valid() && s.Runnable()
  {
    var t := BracketChecker(s);
    if t.depth > 0 then t.(ip := t.ip + 1) else t
  }

  /** `_backward_jump`: the mirror image of `ForwardJump`. */
  function BackwardJump(s: Session): Session
    requires s.Valid() && s.Runnable()
  {
    var t := BracketChecker(s);
    if t.depth < 0 then t.(ip := t.ip - 1) else t
  }

  /** Sequence `a` is a final segment of `b`. */
  predicate IsSuffix(a: string, b: string) {
    |a| <= |b| && a == b[|b| - |a|..]
  }

  /** One iteration of the loop in `_code_traversal`, dispatched on the sign of the depth.
      Whatever the command, the tape keeps its entry for the data pointer and the code does
      not change (see `StepBounds` for the rest). */
  function Step(s: Session): (r: Session)
    requires s.Valid() && s.Runnable()
    ensures r.Valid() && r.code == s.code
  {
    if s.depth == 0 then NormalParsing(s)
    else if s.depth > 0 then ForwardJump(s)
    else BackwardJump(s)
  }

  /** Whatever the command, no tape entry disappears, each pointer and the depth move by at
      most one, the output grows by at most one character at its end and the input loses at
      most its first character. */
  lemma StepBounds(s: Session)
    requires s.Valid() && s.Runnable()
    ensures var r := Step(s);
      && s.tape.Keys <= r.tape.Keys
      && s.dp - 1 <= r.dp <= s.dp + 1
      && s.ip - 1 <= r.ip <= s.ip + 1
      && s.depth - 1 <= r.depth <= s.depth + 1
      && s.output <= r.output && |r.output| <= |s.output| + 1
      && (r.input == s.input || (s.input != [] && r.input == s.input[1..]))
  {
    if s.depth == 0 {
      HandleCharacterBounds(s);
    }
  }

  /** `StepBounds` for the command handlers, before the code pointer moves. */
  lemma HandleCharacterBounds(s: Session)
    requires s.Valid() && s.Runnable()
    ensures var r := HandleCharacter(s);
      && s.tape.Keys <= r.tape.Keys
      && s.dp - 1 <= r.dp <= s.dp + 1
      && r.ip == s.ip && r.code == s.code
      && s.depth - 1 <= r.depth <= s.depth + 1
      && s.output <= r.output && |r.output| <= |s.output| + 1
      && (r.input == s.input || (s.input != [] && r.input == s.input[1..]))
  {
    var c := Fetch(s);
    if c == '.' {
      assert |Printed(s.Cell())| <= 1;
    } else if c == ',' {
    } else if c == '>' || c == '<' {
    } else {
    }
  }

  /** How a run ended: the loop guard failed, indexing the code raised `IndexError`, or the
      step budget ran out while the program was still running. */
  datatype Status = Halted | IndexError | OutOfFuel

  datatype Outcome = Outcome(status: Status, session: Session)

  /** `n` iterations of the loop in `_code_traversal`, or fewer if the loop guard fails or
      reading the code would raise first. */
  function Steps(s: Session, n: nat): (r: Session)
    requires s.Valid()
    ensures r.Valid() && r.code == s.code
    ensures n == 0 || !s.Runnable() ==> r == s
    decreases n
  {
    if n == 0 || !s.Runnable() then s else Steps(Step(s), n - 1)
  }

  /** The loop of `_code_traversal`, for at most `fuel` iterations. It ends normally exactly
      when the code pointer is past the end, with `IndexError` exactly when the pointer is
      below `-len(code)`, and otherwise is still running when the budget is spent. */
  function Run(s: Session, fuel: nat): (o: Outcome)
    requires s.Valid()
    ensures o.session.Valid() && o.session.code == s.code
    ensures o.status == Halted <==> o.session.ip >= |s.code|
    ensures o.status == IndexError <==> o.session.ip < -|s.code|
    ensures o.status == OutOfFuel <==> o.session.Runnable()
  {
    var t := Steps(s, fuel);
    if t.ip >= |t.code| then Outcome(Halted, t)
    else if t.ip < -|t.code| then Outcome(IndexError, t)
    else Outcome(OutOfFuel, t)
  }

  /** One iteration of the loop body, seen from `Run`: the loop test and the pointer check
      come first, then one step is taken. */
  lemma RunUnfold(s: Session, fuel: nat)
    requires s.Valid()
    ensures s.ip >= |s.code| ==> Run(s, fuel) == Outcome(Halted, s)
    ensures s.ip < -|s.code| ==> Run(s, fuel) == Outcome(IndexError, s)
    ensures s.Runnable() && fuel == 0 ==> Run(s, fuel) == Outcome(OutOfFuel, s)
    ensures s.Runnable() && fuel > 0 ==> Run(s, fuel) == Run(Step(s), fuel - 1)
  {
  }

  /** Along any run no tape entry disappears, the output only grows at its end and the input
      only shrinks from its front. */
  lemma {:induction false} StepsPreserve(s: Session, n: nat)
    requires s.Valid()
    ensures var r := Steps(s, n);
      && s.tape.Keys <= r.tape.Keys
      && s.output <= r.output
      && IsSuffix(r.input, s.input)
    decreases n
  {
    if s.Runnable() && n > 0 {
      var t := Step(s);
      StepBounds(s);
      StepsPreserve(t, n - 1);
      var r := Steps(t, n - 1);
      if t.input != s.input {
        assert s.input[1..][|s.input[1..]| - |r.input|..] == s.input[|s.input| - |r.input|..];
      }
    }
  }

  /** Running `n` iterations and then the rest is the same as running the whole. */
  lemma RunSteps(s: Session, n: nat, fuel: nat)
    requires s.Valid() && n <= fuel
    ensures Run(s, fuel) == Run(Steps(s, n), fuel - n)
  {
    var m := fuel - n;
    StepsAdd(s, n, m);
    assert Steps(s, fuel) == Steps(Steps(s, n), m);
  }

  /** Two consecutive runs of known length make one. */
  lemma StepsJoin(s: Session, a: nat, m: nat, n: nat, mid: Session, f: Session)
    requires s.Valid() && a + m == n
    requires Steps(s, a) == mid
    requires Steps(mid, m) == f
    ensures Steps(s, n) == f
  {
    StepsAdd(s, a, m);
  }

  /** One iteration followed by a run of known length. */
  lemma StepsStep(s: Session, t: Session, m: nat, n: nat, f: Session)
    requires s.Valid() && s.Runnable() && m + 1 == n
    requires Step(s) == t
    requires Steps(t, m) == f
    ensures Steps(s, n) == f
  {
  }

  /** A run that has ended after `n` iterations ends the same way with any larger budget. */
  lemma RunEnded(s: Session, n: nat, fuel: nat, f: Session)
    requires s.Valid() && n <= fuel && Steps(s, n) == f && !f.Runnable()
    ensures Run(s, fuel) == Run(f, 0)
  {
    RunSteps(s, n, fuel);
  }

  lemma {:induction false} StepsAdd(s: Session, a: nat, b: nat)
    requires s.Valid()
    ensures Steps(s, a + b) == Steps(Steps(s, a), b)
    decreases a
  {
    if a > 0 && s.Runnable() {
      var t := Step(s);
      var k := a - 1;
      StepsAdd(t, k, b);
      assert Steps(s, a) == Steps(t, k);
      assert Steps(s, a + b) == Steps(t, k + b);
    }
  }

  // What each command does in normal mode, through the whole dispatch chain.

  /** `+` changes only the current cell, by exactly one, with no wrap-around. */
  lemma StepPlus(s: Session)
    requires s.Valid() && s.Runnable() && s.depth == 0 && Fetch(s) == '+'
    ensures Step(s) == s.(tape := s.tape[s.dp := s.Cell() + 1], ip := s.ip + 1)
  {
  }

  /** `-` changes only the current cell, by exactly minus one, with no wrap-around. */
  lemma StepMinus(s: Session)
    requires s.Valid() && s.Runnable() && s.depth == 0 && Fetch(s) == '-'
    ensures Step(s) == s.(tape := s.tape[s.dp := s.Cell() - 1], ip := s.ip + 1)
  {
  }

  /** `>` moves the data pointer right by one and adds a zero cell only where none exists. */
  lemma StepRight(s: Session)
    requires s.Valid() && s.Runnable() && s.depth == 0 && Fetch(s) == '>'
    ensures var t := Step(s);
      && t.dp == s.dp + 1 && t.ip == s.ip + 1
      && t.tape == (if s.dp + 1 in s.tape then s.tape else s.tape[s.dp + 1 := 0])
      && t == s.(tape := t.tape, dp := t.dp, ip := t.ip)
  {
  }

  /** `<` moves the data pointer left by one and adds a zero cell only where none exists. */
  lemma StepLeft(s: Session)
    requires s.Valid() && s.Runnable() && s.depth == 0 && Fetch(s) == '<'
    ensures var t := Step(s);
      && t.dp == s.dp - 1 && t.ip == s.ip + 1
      && t.tape == (if s.dp - 1 in s.tape then s.tape else s.tape[s.dp - 1 := 0])
      && t == s.(tape := t.tape, dp := t.dp, ip := t.ip)
  {
  }

  /** `.` appends `Printed` of the cell and changes nothing else. */
  lemma StepPeriod(s: Session)
    requires s.Valid() && s.Runnable() && s.depth == 0 && Fetch(s) == '.'
    ensures Step(s) == s.(output := s.output + Printed(s.Cell()), ip := s.ip + 1)
  {
  }

  /** `,` moves the first pending input character's code point into the current cell,
      or stores 0 when the input is used up. */
  lemma StepComma(s: Session)
    requires s.Valid() && s.Runnable() && s.depth == 0 && Fetch(s) == ','
    ensures s.input != [] ==>
      Step(s) == s.(tape := s.tape[s.dp := s.input[0] as int], input := s.input[1..], ip := s.ip + 1)
    ensures s.input == [] ==> Step(s) == s.(tape := s.tape[s.dp := 0], ip := s.ip + 1)
  {
  }

  /** `_` is a no-op on the state. */
  lemma StepUnderscore(s: Session)
    requires s.Valid() && s.Runnable() && s.depth == 0 && Fetch(s) == '_'
    ensures Step(s) == s.(ip := s.ip + 1)
  {
  }

  /** `[` on a zero cell starts a forward scan one past it; otherwise it does nothing. */
  lemma StepOpen(s: Session)
    requires s.Valid() && s.Runnable() && s.depth == 0 && Fetch(s) == '['
    ensures Step(s) == if s.Cell() == 0 then s.(depth := 1, ip := s.ip + 1) else s.(ip := s.ip + 1)
  {
  }

  /** `]` on a nonzero cell starts a backward scan one before it; otherwise it does nothing. */
  lemma StepClose(s: Session)
    requires s.Valid() && s.Runnable() && s.depth == 0 && Fetch(s) == ']'
    ensures Step(s) == if s.Cell() != 0 then s.(depth := -1, ip := s.ip - 1) else s.(ip := s.ip + 1)
  {
  }

  /** While scanning only the depth and the code pointer change: `[` adds one to the depth,
      `]` subtracts one, and the pointer moves on in the scan's direction unless the depth has
      just reached 0. */
  lemma StepScan(s: Session)
    requires s.Valid() && s.Runnable() && s.depth != 0
    ensures var t := Step(s);
      && t.depth == s.depth + (if Fetch(s) == '[' then 1 else if Fetch(s) == ']' then -1 else 0)
      && t.ip == (if t.depth == 0 then s.ip else if s.depth > 0 then s.ip + 1 else s.ip - 1)
      && t == s.(depth := t.depth, ip := t.ip)
  {
  }

  /** A step that is not a `,` does not look at the input. */
  lemma StepIgnoresInput(s: Session, w: string)
    requires s.Valid() && s.Runnable() && Fetch(s) != ','
    ensures Step(s.(input := w)) == Step(s).(input := w)
    ensures Step(s).input == s.input
  {
    var u := s.(input := w);
    assert Fetch(u) == Fetch(s);
    if s.depth == 0 {
      HandleIgnoresInput(s, w);
    } else {
      assert BracketChecker(u) == BracketChecker(s).(input := w);
    }
  }

  lemma HandleIgnoresInput(s: Session, w: string)
    requires s.Valid() && s.Runnable() && Fetch(s) != ','
    ensures HandleCharacter(s.(input := w)) == HandleCharacter(s).(input := w)
    ensures HandleCharacter(s).input == s.input
  {
    var u := s.(input := w);
    assert Fetch(u) == Fetch(s);
    var c := Fetch(s);
    if c == '+' || c == '-' || c == '.' {
    } else if c == '>' || c == '<' {
    } else {
      assert BracketChecker(u) == BracketChecker(s).(input := w);
    }
  }

  predicate NoComma(code: string) {
    forall k :: 0 <= k < |code| ==> code[k] != ','
  }

  lemma NoCommaFetch(s: Session)
    requires s.Runnable() && NoComma(s.code)
    ensures Fetch(s) != ','
  {
    var k := if s.ip >= 0 then s.ip else |s.code| + s.ip;
    assert Fetch(s) == s.code[k];
  }

  /** A program without `,` never consumes input. */
  lemma {:induction false} StepsKeepInput(s: Session, n: nat)
    requires s.Valid() && NoComma(s.code)
    ensures Steps(s, n).input == s.input
    decreases n
  {
    if s.Runnable() && n > 0 {
      NoCommaFetch(s);
      StepIgnoresInput(s, s.input);
      StepsKeepInput(Step(s), n - 1);
    }
  }

  /** A program without `,` runs the same whatever input it is given: everything except the
      untouched input is a function of the program alone. */
  lemma {:induction false} StepsIgnoreInput(s: Session, u: Session, w: string, n: nat)
    requires s.Valid() && NoComma(s.code) && u == s.(input := w)
    ensures Steps(u, n) == Steps(s, n).(input := w)
    decreases n
  {
    if s.Runnable() && n > 0 {
      var t := Step(s);
      var tu := Step(u);
      NoCommaFetch(s);
      StepIgnoresInput(s, w);
      StepsIgnoreInput(t, tu, w, n - 1);
    }
  }

  lemma RunIgnoresInput(s: Session, w: string, fuel: nat)
    requires s.Valid() && NoComma(s.code)
    ensures var o := Run(s, fuel);
      Run(s.(input := w), fuel) == Outcome(o.status, o.session.(input := w))
      && o.session.input == s.input
  {
    StepsIgnoreInput(s, s.(input := w), w, fuel);
    StepsKeepInput(s, fuel);
  }
}
