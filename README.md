# Colour test: a Dafny model of its two state machines

The program lights a hidden random mix of red, green and blue on the booster board's LED. The user
guesses the mix from a four-row menu (Red, Green, Blue, End test) with the two buttons. The program
then says whether the guess was right. Everything is driven from one polling loop:

- a root screen machine (`ScreensFSM`) walks the screens opening, instructions, test and result, then back to instructions;
- while the test screen is up, it calls a test machine (`testFSM`);
- the test machine generates the mix one colour per call, lights it for one call, and then hands the buttons to a stateless guess handler (`guess`);
- `match` compares the guess with the hidden mix.

Modules, one per part of `colorTest_main.c`:

- `Board` (`board.dfy`): the target's 32-bit `unsigned int` (`U32`), an `Option`, and the peripheral calls the core makes, as values of `Action`.
- `Colors` (`colors.dfy`): `colorMix_t` as the datatype `ColorMix`, and `match`.
- `GuessInput` (`guess_input.dfy`): `guess` as the method `Guess`. Its pointer arguments become in-parameters and out-parameters. It is specified by the functions `Advance` (one arrow move) and `Select` (one selection). `PressBottom` iterates `Advance`.
- `TestMachine` (`test_machine.dfy`): `testFSM` as the class `TestFsm`. Its static variables are fields. Each call is the method `Tick`. The two-state predicate `Stepped` says how one call changes the fields, and `Emitted` what peripheral calls it makes.
- `ScreenMachine` (`screen_machine.dfy`): `ScreensFSM` as the class `ScreensFsm`. Its static `state` and `newTest` are fields, and it owns the `TestFsm`. `Tick` returns the five output flags and the peripheral calls they lead to.
- `Scenarios` (`scenarios.dfy`): scenarios spanning several ticks, proved from the contracts alone. They cover a complete generation phase and two end-to-end games, one wrong and one right.

The hardware reads become parameters of each tick: the two buttons, the joystick pair `(vx, vy)`
and whether the one-shot timer has expired. Display, LED and timer calls become returned `Action`s.

Where the program's own description and its code disagree, the model follows the code:

- The header comment (colorTest_main.c:10-13) gives the top button the move and the bottom button the selection. The code does the opposite (colorTest_main.c:127, 145): the bottom button moves the arrow and the top button selects.
- A new test does not clear the hidden mix (colorTest_main.c:192-207). Setup overwrites each of its colours instead.
- Setup takes four calls, not three. The fourth call samples the joystick, assigns nothing and moves on through the `default` branch (colorTest_main.c:232-235).
- The result screen's timer is started with `OPENING_WAIT`. `ENDTEST_WAIT` is defined but never used (colorTest_main.c:28, 365). The model keeps this and proves that every timer start uses `OPENING_WAIT`.

Some details of the code that the model keeps exactly:

- `arrowPos` is unsigned, so an increment of the largest value wraps to 0. The option index `arrowPos - 1` wraps too, so any row other than 1, 2 and 3 ends the test.
- The C statics start at zero. Before its first reset the test machine is therefore in setup with the arrow on row 0. The screen machine always resets it first.
- When `testFSM` does not finish, it leaves the caller's result unwritten. The model returns `None` in that case.

## Model

| member | source | states |
|---|---|---|
| `Colors.Match` | colorTest_main.c:97-104 | true exactly when the guess and the actual mix agree on all three colours, i.e. are the same mix |
| `Colors.MatchIsEquivalence` | colorTest_main.c:97-104 | match is reflexive, symmetric and transitive |
| `Colors.ExtendsIsPreorder` | colorTest_main.c:155-161 | "holds every colour of" is reflexive and transitive, so a guess that grows at each step has grown overall |
| `GuessInput.Advance` | colorTest_main.c:133-137 | a move goes one row down; from the bottom row, or any row past it, it goes to the top row; only the largest unsigned value wraps to 0; from a menu row it lands on row `p mod 4 + 1` |
| `GuessInput.Select` | colorTest_main.c:151-165 | rows 1, 2, 3 set only red, green, blue respectively to true; any other row leaves the guess unchanged; no colour is ever cleared |
| `GuessInput.SelectIdempotent` | colorTest_main.c:152-162 | selecting the same row again changes nothing |
| `GuessInput.Guess` | colorTest_main.c:113-171 | the move is applied first and the selection uses the new row; finished exactly when top is pressed on a row that is not a colour, and then the guess is unchanged; no top press means not finished; the arrow stays on the menu; the guess only grows; the arrow and star characters drawn |
| `GuessInput.SelectRowsExtends` | colorTest_main.c:145-166 | after any sequence of top presses the guess still holds every colour it held before |
| `GuessInput.PressBottomWraps` | colorTest_main.c:133-137 | from row p in 1..4, n bottom presses land on row ((p - 1 + n) mod 4) + 1, again in 1..4 |
| `GuessInput.FourPressesReturn` | colorTest_main.c:133-137 | four bottom presses bring the arrow back to its start |
| `GuessInput.FivePressesSelectGreen` | colorTest_main.c:127-162 | from Red, five bottom presses land on Green, and a top press there adds green |
| `TestMachine.RandomBit` | colorTest_main.c:216-217 | the random bit is true exactly when the two joystick samples have different parities |
| `TestMachine.LightUp` | colorTest_main.c:241-256 | exactly one LED-on call for each colour in the mix and none for any other LED, red first and blue last (so red, green, blue in order); none for the dark mix |
| `TestMachine.TestFsm.constructor` | colorTest_main.c:178-181 | zero-initialised statics: both mixes dark, setup phase, colour index RED, arrow on row 0 |
| `TestMachine.TestFsm.Tick` | colorTest_main.c:175-272 | a new test resets the phase, colour index, arrow and guess (not the hidden mix), switches all LEDs off and runs the first setup step; setup assigns red, green, blue on successive calls and moves to lightup on the fourth; lightup switches on the hidden colours and moves to testing; finished only from testing, exactly when the guess handler finishes, and only then the result is `match(guess, actual)`; within a test the phase never goes back, the hidden mix is frozen after setup, the guess only grows, the arrow stays on the menu; the invariant `Valid` is kept |
| `ScreenMachine.Perform` | colorTest_main.c:362-380 | the timer is started exactly when its flag is set, always with `OPENING_WAIT`, and before any screen; each screen is drawn exactly when its flag is set; every result screen carries the given verdict |
| `ScreenMachine.Screens` | colorTest_main.c:369-380 | each of the four screens is drawn exactly when its flag is set, one call per set flag, no timer call among them, and the result screen carries the given verdict |
| `ScreenMachine.ScreensFsm.constructor` | colorTest_main.c:278-280 | the machine starts in INCEPTION with no new test pending and a zero-initialised test machine |
| `ScreenMachine.ScreensFsm.Tick` | colorTest_main.c:275-382 | the state either stays or moves to its one successor (INCEPTION, OPENING, INSTRUCTIONS, TEST, TESTEND, back to INSTRUCTIONS); exactly one screen is drawn on a move and none otherwise; the timer is started only on entering OPENING and TESTEND, always with `OPENING_WAIT`; OPENING and TESTEND leave only on timer expiry, INSTRUCTIONS only on a bottom press, TEST only when the test machine finishes; the new-test flag is set on entering TEST, reaches the test machine on the first test tick only and is cleared after every test tick; the test machine is left untouched outside TEST and takes exactly one step (`Stepped`) on each TEST tick; on a TEST tick the calls performed are the test machine's own (`Emitted`: LEDs off on reset, LEDs on in lightup, arrow and star characters in testing) followed by the timer and screen calls of the flags; every result screen shows `match` of the final guess and mix, so no opposite verdict is drawn |
| `Scenarios.NewTestRun` | colorTest_main.c:192-258 | after a reset: calls 1-3 draw red, green and blue from their samples, call 4 only moves on, call 5 lights the hidden colours; no call finishes and the buttons are ignored throughout |
| `Scenarios.StartTest` | colorTest_main.c:321-347 | from the instructions screen, a bottom press and five test ticks reach the testing phase with a fresh guess, the arrow on Red and the mix drawn from the samples |
| `Scenarios.Boot` | colorTest_main.c:297-319 | from power-up, one tick draws the opening screen and a timer expiry reaches the instructions |
| `Scenarios.MoveDown` | colorTest_main.c:127-141 | during the test, n bottom presses alone move the arrow n rows down and leave the guess and the hidden mix unchanged |
| `Scenarios.WrongGuess` | colorTest_main.c:275-382 | hidden red and blue, guess red then End: the result screen says wrong and no screen says right; a button press on the result screen is ignored; timer expiry returns to the instructions |
| `Scenarios.DarkRightGuess` | colorTest_main.c:113-171 | hidden dark mix, both buttons on the last move: the selection falls on End, the guess stays dark and the result screen says right, and no screen says wrong |

## Left out

- The four screen-drawing routines and their text (colorTest_main.c:49-92) are display output. They appear only as the actions `DrawOpeningScreen`, `DrawInstructionsScreen`, `DrawTestScreen` and `DrawEndTestScreen(correct)`.
- LED, display and timer calls are modelled as returned actions, not as hardware. The timer library itself (initialise, start, expired) is foreign code. Its expiry is a boolean input of each tick, so the model does not check that OPENING and TESTEND wait for a timer actually started.
- The buttons and the joystick are hardware reads. Each tick receives the value that whichever part reads them on that tick would get. Debouncing, and the loss of a press that no part reads, are not modelled.
- Randomness quality is not modelled: the random bit is a function of the two samples passed in.
- `main`'s hardware initialisation and its endless loop (colorTest_main.c:384-402) are platform setup. The loop is what calls `ScreensFsm.Tick` once per pass.
