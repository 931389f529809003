# A verified model of the `brainfuck.py` interpreter

`brainfuck.py` interprets brainfuck programs. `Interpreter.interpret` first strips every
character that is not one of `+ _ - . , > < ] [` from the program. It then runs the main
loop of `_code_traversal` over the cleaned code. The interpreter's state is:

- a sparse tape of unbounded integers, starting as `{0: 0}`;
- a data pointer;
- a code pointer;
- a signed bracket counter;
- the output produced so far;
- the input still to be read.

The bracket counter picks the mode of each iteration. At 0, the interpreter runs the current
command. Above 0, it scans forward over a loop body. Below 0, it scans backward to the start
of a loop. Loops are resolved by counting brackets during these scans; no table of matching
brackets is kept.

The project has five modules.

- `Sanitizer` (sanitizer.dfy) defines the code cleaner as a recursive filter. It proves that
  the cleaned code is exactly the subsequence of command characters, in their original order.
  It also proves that cleaning is idempotent.
- `Semantics` (semantics.dfy) gives the state as the `Session` datatype. It has one function
  per command handler and one per mode of the main loop. `Step` is one iteration of the loop.
  `Steps` applies it repeatedly, and `Run` is the whole loop under a step budget. This module
  proves the effect of each command, the tape invariant, and that scanning changes nothing but
  the bracket counter and the code pointer.
- `Loops` (loops.dfy) covers loop resolution. A `[` on a zero cell resumes one past its
  matching `]`. A `]` on a nonzero cell resumes just after its matching `[`. An unmatched `[`
  scans off the end, so the run halts.
- `Interpreters` (interpreter.dfy) has the class `Interpreter`, with the Python fields and
  one method per Python method. Each method's contract says that the new state equals the
  Semantics function applied to the old state. `CodeTraversal` holds the main `while` loop,
  which is proved to compute `Run`. Outside the class are the module-level `Interpret` and
  the function `Execute`, which it computes.
- `Examples` (examples.dfy) covers whole programs. It proves the four checks of test.py for
  every large enough step budget, and generalises each one: any count of `+`, two cells filled
  by any numbers of `+`, and echoing any input whose characters have codes 1 to 255. It
  also covers stray characters and unbalanced brackets.

The backward scan from an unmatched `]` does not end the run. The loop guard
(brainfuck.py:69) only checks `code_pointer < len(code)`. Reading the code at
brainfuck.py:160 with a negative pointer counts from the end of the code, as Python does. The
scan therefore wraps round to the end of the code, and the model records this.
`Examples.ExampleUnmatchedCloseRaises` shows that `+]` ends with `IndexError`.
`Examples.ExampleUnmatchedCloseNeverHalts` shows that `+][` runs forever.

## Model

| member | source | states |
|---|---|---|
| Sanitizer.Cleanse | brainfuck.py:53-60 | cleaning never lengthens the code |
| Sanitizer.CleanseCommandsOnly | brainfuck.py:58-59 | only the nine command characters survive cleaning |
| Sanitizer.CleanseIsSubsequence | brainfuck.py:58-59 | the cleaned code is the input at a strictly increasing list of positions, and every command position of the input is on that list |
| Sanitizer.CleanseFixpoint | brainfuck.py:58-60 | cleaning leaves code unchanged exactly when it holds only commands |
| Sanitizer.CleanseIdempotent | brainfuck.py:58-60 | cleaning already-cleaned code changes nothing |
| Sanitizer.CleanseEmpty | brainfuck.py:58-59 | cleaning gives the empty string exactly when the input holds no command |
| Sanitizer.CleanseAppend | brainfuck.py:58-59 | cleaning a concatenation is the concatenation of the cleaned parts |
| Sanitizer.CleanseAppendNoise | brainfuck.py:58-59 | appending text without commands leaves the cleaned code unchanged |
| Sanitizer.CleanseAppendCommands | brainfuck.py:58-59 | appended commands are kept as they are |
| Semantics.Initial | brainfuck.py:22-34 | the reset state: tape `{0: 0}`, empty code, both pointers and the bracket counter 0, output and input empty |
| Semantics.Printed | brainfuck.py:191-194 | `.` prints at most one character; it prints nothing exactly when the cell is a multiple of 256, and otherwise the character whose code is the cell mod 256 (never negative) |
| Semantics.Fetch | brainfuck.py:132 | the command under the code pointer; a negative pointer counts from the end of the code, as Python's indexing does |
| Semantics.Plus | brainfuck.py:175-179 | the current cell plus one |
| Semantics.Minus | brainfuck.py:181-185 | the current cell minus one |
| Semantics.Period | brainfuck.py:187-194 | `Printed` of the current cell appended to the output |
| Semantics.Comma | brainfuck.py:196-204 | the code of the first input character, which is dropped, or 0 when no input is left, stored in the current cell |
| Semantics.Sequester | brainfuck.py:206-213 | a 0 entry for the data pointer, added only when it has none |
| Semantics.MoveRight | brainfuck.py:215-220 | the data pointer one to the right, with an entry |
| Semantics.MoveLeft | brainfuck.py:222-227 | the data pointer one to the left, with an entry |
| Semantics.OpenBracket | brainfuck.py:229-234 | the bracket counter plus one on a zero cell or while scanning |
| Semantics.CloseBracket | brainfuck.py:236-241 | the bracket counter minus one on a nonzero cell or while scanning |
| Semantics.BracketChecker | brainfuck.py:150-164 | only brackets do anything |
| Semantics.HandleCharacter | brainfuck.py:127-148 | dispatch on the current command; `_` changes nothing |
| Semantics.NormalParsing | brainfuck.py:96-105 | the command, then the code pointer forward or, if a backward scan began, back |
| Semantics.ForwardJump | brainfuck.py:107-115 | a bracket handled, then forward while the counter is positive |
| Semantics.BackwardJump | brainfuck.py:117-125 | a bracket handled, then back while the counter is negative |
| Semantics.Step | brainfuck.py:69-77 | one iteration keeps an entry for the data pointer on the tape and never changes the code |
| Semantics.StepBounds | brainfuck.py:96-125 | in one iteration no tape entry disappears; each pointer and the bracket counter moves by at most one; the output grows by at most one character at its end; the input loses at most its first character |
| Semantics.HandleCharacterBounds | brainfuck.py:127-148 | the same bounds for one command handler, which leaves the code pointer alone |
| Semantics.Steps | brainfuck.py:69-77 | `n` iterations keep the tape invariant and the code; nothing happens once the loop guard fails or reading the code would raise |
| Semantics.Run | brainfuck.py:62-77 | a run halts exactly when the code pointer is at or past the end; it raises `IndexError` exactly when the pointer is below `-len(code)`; it is out of budget exactly when the program could still go on |
| Semantics.RunUnfold | brainfuck.py:69-77 | the loop test, then one iteration of the body |
| Semantics.StepsPreserve | brainfuck.py:179-227 | along a whole run no tape entry is removed, the output only grows at its end, and the remaining input is a suffix of the original |
| Semantics.StepsAdd | brainfuck.py:69-77 | `a + b` iterations are `a` iterations followed by `b` |
| Semantics.RunSteps | brainfuck.py:69-77 | a run is its first `n` iterations followed by the rest |
| Semantics.RunEnded | brainfuck.py:69-77 | a run that has ended ends the same way with any larger budget |
| Semantics.StepPlus | brainfuck.py:179 | `+` adds exactly 1 to the current cell, with no wrap-around; only the cell and the code pointer change |
| Semantics.StepMinus | brainfuck.py:185 | `-` subtracts exactly 1 from the current cell; only the cell and the code pointer change |
| Semantics.StepRight | brainfuck.py:215-220 | `>` moves the data pointer by +1 and adds a 0 entry only when there is none |
| Semantics.StepLeft | brainfuck.py:222-227 | `<` moves the data pointer by -1 and adds a 0 entry only when there is none |
| Semantics.StepPeriod | brainfuck.py:187-194 | `.` appends `Printed` of the cell and changes nothing else |
| Semantics.StepComma | brainfuck.py:196-204 | with input left, `,` moves the code of the first input character into the cell and drops that character; with no input left it stores 0 |
| Semantics.StepUnderscore | brainfuck.py:166-173 | `_` changes nothing but the code pointer |
| Semantics.StepOpen | brainfuck.py:229-234 | `[` on a zero cell starts a forward scan one past it; otherwise it only moves on |
| Semantics.StepClose | brainfuck.py:236-241 | `]` on a nonzero cell starts a backward scan one before it; otherwise it only moves on |
| Semantics.StepScan | brainfuck.py:107-125 | while scanning, `[` adds 1 to the bracket counter and `]` subtracts 1; the code pointer moves in the scan's direction and stays put when the counter reaches 0; nothing else changes |
| Semantics.StepIgnoresInput | brainfuck.py:127-164 | an iteration that is not at a `,` neither reads nor changes the input |
| Semantics.StepsKeepInput | brainfuck.py:196-204 | a program without `,` never consumes input |
| Semantics.StepsIgnoreInput | brainfuck.py:196-204 | a program without `,` runs identically on any input |
| Semantics.RunIgnoresInput | brainfuck.py:62-77 | a run of a program without `,` ends the same way, with the same output, on any input |
| Loops.ForwardScan | brainfuck.py:107-115 | a forward scan stops, with the bracket counter at 0, on the first position where the counter returns to 0; only the counter and the code pointer change |
| Loops.ForwardScanOffEnd | brainfuck.py:107-115 | a forward scan whose counter never returns to 0 runs off the end of the code |
| Loops.BackwardScan | brainfuck.py:117-125 | a backward scan stops, with the bracket counter at 0, on the matching `[`; only the counter and the code pointer change |
| Loops.SkipLoop | brainfuck.py:229-234 | a `[` on a zero cell leads to normal execution one past its matching `]`, with nothing else changed |
| Loops.RepeatLoop | brainfuck.py:236-241 | a `]` on a nonzero cell leads to normal execution just after its matching `[`, with nothing else changed |
| Loops.UnmatchedOpenScan | brainfuck.py:107-115 | an unmatched `[` on a zero cell scans to the end of the code, changing only the code pointer and the bracket counter |
| Loops.UnmatchedOpenHalts | brainfuck.py:69-115 | hence the run halts, with the output produced before the `[` |
| Interpreters.Load | brainfuck.py:44-46 | loading replaces the code with the cleaned program and the input with the given one; everything else stays |
| Interpreters.Execute | brainfuck.py:243-246 | what the module-level `interpret` computes: a fresh interpreter runs the cleaned program on the input |
| Interpreters.ExecuteCleansed | brainfuck.py:44-47 | two programs with the same cleaned code behave the same on every input |
| Interpreters.Interpreter.constructor | brainfuck.py:14-20 | a new interpreter is in the reset state |
| Interpreters.Interpreter.Reset | brainfuck.py:22-34 | sets every field to the reset state |
| Interpreters.Interpreter.Interpret | brainfuck.py:36-51 | returns the output of running the cleaned program, on the given input, from the current state; resets afterwards only when asked to |
| Interpreters.Interpreter.CleanseCode | brainfuck.py:53-60 | replaces the code by its cleaned form and changes nothing else |
| Interpreters.Interpreter.CodeTraversal | brainfuck.py:62-77 | the main loop leaves the interpreter in the state that `Run` gives, and reports how the run ended |
| Interpreters.Interpreter.NormalParsing | brainfuck.py:96-105 | runs the command, then moves the code pointer forward or, if a backward scan began, back |
| Interpreters.Interpreter.ForwardJump | brainfuck.py:107-115 | handles a bracket, and moves forward while the counter is positive |
| Interpreters.Interpreter.BackwardJump | brainfuck.py:117-125 | handles a bracket, and moves back while the counter is negative |
| Interpreters.Interpreter.CurrentCommand | brainfuck.py:132 | reads the command under the code pointer, with negative pointers counting from the end |
| Interpreters.Interpreter.HandleCharacter | brainfuck.py:127-148 | dispatches on the current command |
| Interpreters.Interpreter.BracketChecker | brainfuck.py:150-164 | only brackets do anything |
| Interpreters.Interpreter.HandleUnderscore | brainfuck.py:166-173 | changes no field |
| Interpreters.Interpreter.HandlePlus | brainfuck.py:175-179 | increments the current cell |
| Interpreters.Interpreter.HandleMinus | brainfuck.py:181-185 | decrements the current cell |
| Interpreters.Interpreter.HandlePeriod | brainfuck.py:187-194 | appends `Printed` of the current cell to the output |
| Interpreters.Interpreter.HandleComma | brainfuck.py:196-204 | stores the code of the next input character, or 0, in the current cell |
| Interpreters.Interpreter.SequesterData | brainfuck.py:206-213 | gives the data pointer a 0 entry only when it has none |
| Interpreters.Interpreter.HandleGt | brainfuck.py:215-220 | moves the data pointer right and gives it an entry |
| Interpreters.Interpreter.HandleLt | brainfuck.py:222-227 | moves the data pointer left and gives it an entry |
| Interpreters.Interpreter.HandleOpenBracket | brainfuck.py:229-234 | adds 1 to the bracket counter on a zero cell or while scanning |
| Interpreters.Interpreter.HandleCloseBracket | brainfuck.py:236-241 | subtracts 1 from the bracket counter on a nonzero cell or while scanning |
| Interpreters.Interpret | brainfuck.py:243-246 | the module-level `interpret` returns the output of `Execute`: a fresh interpreter running the cleaned program on the input |
| Interpreters.ChainedCallStartsAtOldPointer | brainfuck.py:36-51 | without a reset the code pointer persists, so after a halted run a program no longer than the previous one does not run at all, and the old output is returned |
| Examples.Repeat | test.py:12 | Python's `c * n`: `n` copies of `c` |
| Examples.PlusRun | brainfuck.py:179 | `k` pluses add `k` to the current cell in `k` iterations |
| Examples.EchoLoop | brainfuck.py:229-241 | the loop `[,.]` moves all pending input to the output, when every input character has a code from 1 to 255 |
| Examples.CountPrint | test.py:12 | `'+' * k + '-.'` halts and prints `Printed(k - 1)` |
| Examples.TwoCells | test.py:13 | `'+' * k1 + '>' + '+' * k2 + '.<.'` halts and prints `Printed(k2)` followed by `Printed(k1)` |
| Examples.EchoAfterRead | test.py:14 | `,.[,.]` halts and prints its input, when every input character has a code from 1 to 255 |
| Examples.EchoLoopProgram | test.py:15 | `+[,.]` halts and prints its input, when every input character has a code from 1 to 255 |
| Examples.ExampleOneCell | test.py:12 | `'+'*98 + '-.'` halts with output `"a"` |
| Examples.ExampleTwoCells | test.py:13 | `'+'*97 + '>' + '+'*98 + '.<.'` halts with output `"ba"` |
| Examples.ExampleEchoAfterRead | test.py:14 | `,.[,.]` on `"banana"` halts with output `"banana"` |
| Examples.ExampleEchoLoop | test.py:15 | `+[,.]` on `"banana"` halts with output `"banana"` |
| Examples.OneCellClient | test.py:12 | the module-level `Interpret` returns `"a"` for the first check |
| Examples.ExampleUnmatchedOpen | brainfuck.py:107-115 | `[.` halts on any input with empty output |
| Examples.StrayClean | brainfuck.py:58-59 | command-free text around and inside `+-.` is removed |
| Examples.StrayCharacters | brainfuck.py:44-47 | a program with command-free text around and inside `+-.` halts with empty output on any input |
| Examples.ExampleStrayCharacters | brainfuck.py:44-47 | `he+llo-.world` halts with empty output |
| Examples.ExampleUnmatchedCloseRaises | brainfuck.py:117-125 | `+]` scans below index 0 and ends with `IndexError` |
| Examples.CycleStep | brainfuck.py:160 | each of the five states that `+][` cycles through steps to the next one, with the cell growing by one each round |
| Examples.CycleNeverHalts | brainfuck.py:69-77 | from any state of that cycle no budget is enough for the run to end |
| Examples.ExampleUnmatchedCloseNeverHalts | brainfuck.py:117-125 | `+][` never halts and never raises, for any input |

## Left out

- `main()` (brainfuck.py:248-258) is left out. It only reads files, prompts on standard input and prints.
- `_debug_output` and the `_debug` flag (brainfuck.py:70-71, 79-94) are left out, because they only print.
- Interpreters.Interpreter.HandleUnderscore: does not model the debugging printout of `_`, because printing is not part of the state.
- The `re` module is not part of this model. The substitution at brainfuck.py:58-59 is modelled by the character filter it performs.
- Non-termination is handled with a budget. `Run`, `Interpreters.Interpreter.CodeTraversal`, `Interpreters.Interpreter.Interpret` and `Interpreters.Interpret` take a `fuel` parameter that bounds the iterations of the main loop. If the budget runs out, the status is `OutOfFuel`. A program that never halts, such as `+][`, has that status for every budget.
- Interpreters.Interpreter.Interpret: Python raises `IndexError` when the code pointer goes below `-len(code)`. The model returns the status `IndexError` together with the output so far, and does not reset the state. In Python the exception propagates and no reset takes place.
- Interpreters.Interpret: when the run raises or runs out of budget, the model still reports the output so far alongside the status. Python returns no output when it raises.
- Examples.EchoLoop, Examples.EchoAfterRead, Examples.EchoLoopProgram: are proved only for inputs whose characters have codes 1 to 255. For other inputs, `.` prints a different character or nothing at all, and the echo no longer equals the input.
- Object identity and aliasing of `Interpreter` instances are not modelled. Each method changes only its own object.
