/** `Interpreter` and the module-level `interpret` of `brainfuck.py`. Every method changes the
    fields as its Python namesake does, and its contract says that the new state is the
    function of Semantics (or Sanitizer) applied to the old one. */
module Interpreters {
  import opened Sanitizer
  import opened Semantics

  /** The start of `Interpreter.interpret`: the code is replaced by the cleaned program and
      the input by the given one; everything else, the code pointer included, stays. */
  function Load(s: Session, program: string, programInput: string): (r: Session)
    ensures r.Valid() == s.Valid()
    ensures r.code == Cleanse(program) && r.input == programInput
    ensures r.(code := s.code, input := s.input) == s
  {
    s.(code := Cleanse(program), input := programInput)
  }

  /** What the module-level `interpret` computes: a fresh interpreter runs the cleaned
      program on the given input. */
  function Execute(program: string, programInput: string, fuel: nat): Outcome {
    Run(Load(Initial(), program, programInput), fuel)
  }

  /** Only the commands of a program matter: two programs with the same cleaned code behave
      the same on every input. */
  lemma ExecuteCleansed(p: string, q: string, programInput: string, fuel: nat)
    requires Cleanse(p) == Cleanse(q)
    ensures Execute(p, programInput, fuel) == Execute(q, programInput, fuel)
  {
    assert Load(Initial(), p, programInput) == Load(Initial(), q, programInput);
  }

  class Interpreter {
    var data: map<int, int>
    var dataPointer: int
    var code: string
    var codePointer: int
    var bracketCount: int
    var programOutput: string
    var programInput: string

    /** The fields as one value. */
    function Snapshot(): Session
      reads this
    {
      Session(data, dataPointer, code, codePointer, bracketCount, programOutput, programInput)
    }

    predicate Valid()
      reads this
    {
      Snapshot().Valid()
    }

    constructor ()
      ensures Valid() && Snapshot() == Initial()
    {
      new;
      Reset();
    }

    method Reset()
      modifies this
      ensures Valid() && Snapshot() == Initial()
    {
      data := map[0 := 0];
      dataPointer := 0;
      code := "";
      codePointer := 0;
      bracketCount := 0;
      programOutput := "";
      programInput := "";
    }

    /** Runs `program` on `programInput` for at most `fuel` iterations of the main loop and
        returns how the run ended and the output. The state is reset afterwards only when the
        run halted and `resetOnFinish` is set. */
    method Interpret(program: string, programInput: string, resetOnFinish: bool := true, fuel: nat)
      returns (status: Status, out: string)
      requires Valid()
      modifies this
      ensures Valid()
      ensures var o := Run(Load(old(Snapshot()), program, programInput), fuel);
        && status == o.status && out == o.session.output
        && Snapshot() == (if status == Halted && resetOnFinish then Initial() else o.session)
    {
      code := program;
      CleanseCode();
      this.programInput := programInput;
      status := CodeTraversal(fuel);
      out := programOutput;
      if status == Halted && resetOnFinish {
        Reset();
      }
    }

    method CleanseCode()
      modifies this
      ensures Snapshot() == old(Snapshot()).(code := Cleanse(old(code)))
    {
      code := Cleanse(code);
    }

    /** The main loop. Python's loop checks only `codePointer < |code|`; a pointer below
        `-|code|` makes the next read of the code raise, which is the `IndexError` outcome. */
    method CodeTraversal(fuel: nat) returns (status: Status)
      requires Valid()
      modifies this
      ensures Valid()
      ensures Outcome(status, Snapshot()) == Run(old(Snapshot()), fuel)
    {
      var remaining := fuel;
      while codePointer < |code|
        invariant Valid()
        invariant Run(Snapshot(), remaining) == Run(old(Snapshot()), fuel)
        decreases remaining
      {
        if codePointer < -|code| {
          return IndexError;
        }
        if remaining == 0 {
          return OutOfFuel;
        }
        if bracketCount == 0 {
          NormalParsing();
        } else if bracketCount > 0 {
          ForwardJump();
        } else {
          BackwardJump();
        }
        remaining := remaining - 1;
      }
      return Halted;
    }

    method NormalParsing()
      requires Valid() && Snapshot().Runnable()
      modifies this
      ensures Valid() && Snapshot() == Semantics.NormalParsing(old(Snapshot()))
    {
      HandleCharacter();
      if bracketCount >= 0 {
        codePointer := codePointer + 1;
      } else {
        codePointer := codePointer - 1;
      }
    }

    method ForwardJump()
      requires Valid() && Snapshot().Runnable()
      modifies this
      ensures Valid() && Snapshot() == Semantics.ForwardJump(old(Snapshot()))
    {
      BracketChecker();
      if bracketCount > 0 {
        codePointer := codePointer + 1;
      }
    }

    method BackwardJump()
      requires Valid() && Snapshot().Runnable()
      modifies this
      ensures Valid() && Snapshot() == Semantics.BackwardJump(old(Snapshot()))
    {
      BracketChecker();
      if bracketCount < 0 {
        codePointer := codePointer - 1;
      }
    }

    /** The command under the code pointer, with Python's negative indexing. */
    method CurrentCommand() returns (c: char)
      requires Snapshot().Runnable()
      ensures c == Fetch(Snapshot())
    {
      c := code[if codePointer >= 0 then codePointer else |code| + codePointer];
    }

    method HandleCharacter()
      requires Valid() && Snapshot().Runnable()
      modifies this
      ensures Valid() && Snapshot() == Semantics.HandleCharacter(old(Snapshot()))
    {
      var c := CurrentCommand();
      if c == '+' {
        HandlePlus();
      } else if c == '-' {
        HandleMinus();
      } else if c == '>' {
        HandleGt();
      } else if c == '<' {
        HandleLt();
      } else if c == '.' {
        HandlePeriod();
      } else if c == ',' {
        HandleComma();
      } else if c == '_' {
        HandleUnderscore();
      } else {
        BracketChecker();
      }
    }

    method BracketChecker()
      requires Valid() && Snapshot().Runnable()
      modifies this
      ensures Valid() && Snapshot() == Semantics.BracketChecker(old(Snapshot()))
    {
      var c := CurrentCommand();
      if c == '[' {
        HandleOpenBracket();
      } else if c == ']' {
        HandleCloseBracket();
      }
    }

    /** `_` prints a snapshot of the state in the source; printing is not modelled. */
    method HandleUnderscore()
      ensures unchanged(this)
    {
    }

    method HandlePlus()
      requires Valid()
      modifies this
      ensures Valid() && Snapshot() == Plus(old(Snapshot()))
    {
      data := data[dataPointer := data[dataPointer] + 1];
    }

    method HandleMinus()
      requires Valid()
      modifies this
      ensures Valid() && Snapshot() == Minus(old(Snapshot()))
    {
      data := data[dataPointer := data[dataPointer] - 1];
    }

    method HandlePeriod()
      requires Valid()
      modifies this
      ensures Valid() && Snapshot() == Period(old(Snapshot()))
    {
      var theOrd := data[dataPointer] % 256;
      var theChar := theOrd as char;
      if theOrd != 0 {
        programOutput := programOutput + [theChar];
      } else {
        assert programOutput + Printed(data[dataPointer]) == programOutput;
      }
    }

    method HandleComma()
      requires Valid()
      modifies this
      ensures Valid() && Snapshot() == Comma(old(Snapshot()))
    {
      var theData;
      if |programInput| > 0 {
        theData := programInput[0] as int;
        programInput := programInput[1..];
      } else {
        theData := 0;
      }
      data := data[dataPointer := theData];
    }

    method SequesterData()
      modifies this
      ensures Valid() && Snapshot() == Sequester(old(Snapshot()))
    {
      if dataPointer !in data {
        data := data[dataPointer := 0];
      }
    }

    method HandleGt()
      modifies this
      ensures Valid() && Snapshot() == MoveRight(old(Snapshot()))
    {
      dataPointer := dataPointer + 1;
      SequesterData();
    }

    method HandleLt()
      modifies this
      ensures Valid() && Snapshot() == MoveLeft(old(Snapshot()))
    {
      dataPointer := dataPointer - 1;
      SequesterData();
    }

    method HandleOpenBracket()
      requires Valid()
      modifies this
      ensures Valid() && Snapshot() == OpenBracket(old(Snapshot()))
    {
      if data[dataPointer] == 0 || bracketCount != 0 {
        bracketCount := bracketCount + 1;
      }
    }

    method HandleCloseBracket()
      requires Valid()
      modifies this
      ensures Valid() && Snapshot() == CloseBracket(old(Snapshot()))
    {
      if data[dataPointer] != 0 || bracketCount != 0 {
        bracketCount := bracketCount - 1;
      }
    }
  }

  /** The module-level `interpret`: a fresh interpreter, reset when the run halts. */
  method Interpret(program: string, standardInput: string := "", fuel: nat) returns (status: Status, out: string)
    ensures status == Execute(program, standardInput, fuel).status
    ensures out == Execute(program, standardInput, fuel).session.output
  {
    var interpreter := new Interpreter();
    status, out := interpreter.Interpret(program, standardInput, fuel := fuel);
  }

  /** With `resetOnFinish` off, a halted interpreter keeps its code pointer, so a next program
      no longer than the previous one does not run at all: the call returns the old output. */
  lemma ChainedCallStartsAtOldPointer(s: Session, program: string, programInput: string, fuel: nat)
    requires s.Valid() && s.ip >= |s.code| && |Cleanse(program)| <= |s.code|
    ensures Run(Load(s, program, programInput), fuel) == Outcome(Halted, Load(s, program, programInput))
  {
  }
}
