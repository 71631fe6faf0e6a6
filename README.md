# Bomb diffuser game engine in Dafny

A model of the game loop of the handheld "bomb diffuser" game (`src/code.py`).
The device has a rotary encoder with a push button, an accelerometer and a
small display. After a splash screen the player enters three initials and
picks a difficulty. Each level then asks for a random sequence of physical
commands (CUT WIRE = press, DIAL = turn, STEADY = hold still, SHAKE), each
within a time limit. Met commands score points. A lost game may enter the
three-entry high-score table, which is kept in a `name,score` text file.

The loop is a seven-state tick machine:
`SPLASH`, `NAME_INPUT`, `MENU`, `INIT_LEVEL`, `WAIT_INPUT`, `LEVEL_RESULT`,
`HS_SHOW`. Each iteration
1. reads the encoder,
2. takes the falling edge of the button level,
3. runs the branch of the current state.

The project has two layers.

- **Values** (`Diffuser`, `GameRules`).
  - The module globals form one `Game` record.
  - They are grouped into the player's name entry, the high-score store, the
    round being played, the knob's last readings and the accelerometer filter.
  - `Next(g, inputs)` is one iteration of the loop.
  - `GameRules` proves what each state does on a tick, and that `Inv` holds
    at every iteration. `Inv` covers letters in A..Z, the cursor in 0..3, a
    non-negative score that is a multiple of 10, a sorted table of at most
    three entries, a level inside its difficulty and a command index inside
    the sequence.
  - It also proves that the table in memory always equals what loading the
    file would give (`Saved`).
- **The loop as the source runs it** (`GameEngine.Engine`).
  - A class with the same grouped globals as fields.
  - Its methods update the fields in place, step by step as the branches of
    the loop do.
  - Each method is proved to compute exactly the value-level step.
  - `Tick` is proved equal to `Next`, and to keep `Inv` and `Saved`.

Around them:
- `Controls`: the press-edge detector, the clamped cursor and the A..Z letter
  wheel, shared with the prototype.
- `Levels`: the level table, the difficulty ranges and the sequence generator.
- `Gesture`: the low-pass filter, the calibration mean and the steady hold
  timer.
- `HighScores`: the check, the insertion, and the loader and writer of the file.
- `Text`: the parts of Python's `str.strip`, `str.split`, line iteration,
  `int()` and `"{}".format` that those use.
- `MenuPrototype`: the earlier two-state menu of `src/menu.py`.

Inputs of one iteration:
- The clock in integer milliseconds, the encoder's `update()` flag and
  position, and the button level.
- The accelerometer reading with its deviation from the baseline: the square
  root is an input, tied to the reading by `IsDeviation`.
- Twenty calibration samples, and the random choices of a new sequence as
  indices into the four moves.
- The file is `None` while it does not exist, or its whole contents.

## Model

| member | source | states |
|---|---|---|
| Controls.PressEdge | src/code.py:578-580 | the falling edge of the button level; its properties are `PressEdgeOnce`, `HeldButtonFiresOnce` and `GameEngine.Engine.ReadButton` |
| Controls.PressEdgeOnce | src/code.py:578-580 | a press edge is never reported on two consecutive polls |
| Controls.Edges | src/code.py:578-580 | the edges over a run of polls: each compares a level with the level of the poll before it |
| Controls.HeldButtonFiresOnce | src/code.py:578-580 | while the button stays held no further edge is reported |
| Controls.Sign | src/code.py:556-561 | the direction of a rotation: 1, -1 or 0, with the sign of the delta |
| Controls.StepCursor | src/code.py:555-567 | the cursor moves exactly one row toward the rotation's sign and is clamped to 0..hi; the prototype's clamp at src/menu.py:97-106 uses it too |
| Controls.LetterAt | src/code.py:631-635 | the letter of an index 0..25 is in A..Z and has that index |
| Controls.LetterStep | src/code.py:628-635 | a rotation moves a letter one step in the sign of the delta, modulo 26, staying in A..Z |
| Controls.LetterStepWraps | src/code.py:628-635 | forward from Z gives A, back from A gives Z, otherwise the neighbouring letter |
| Controls.LetterStepInverse | src/code.py:628-635 | one step forward and one back returns the letter |
| Controls.LetterForwardIndex | src/code.py:628-635 | n forward steps add n to the letter index modulo 26 |
| Controls.LetterCycle | src/code.py:628-635 | 26 steps forward bring a letter back to itself |
| Levels.Code | src/code.py:43-46 | the numeric code of each move; `CommandNamesDistinct` states that different moves have different codes and that exactly these codes have names |
| Levels.CommandName | src/code.py:48-58 | the display name of a move code, `UNKNOWN` for any other; `CommandNamesDistinct` states its properties |
| Levels.LevelTableRows | src/code.py:60-74 | the ten rows of `LEVELS`: numbered from 1, 1, 2 or 4 commands by difficulty, a time limit (in ms) of 2.6-5 s that never grows within a difficulty |
| Levels.CommandNamesDistinct | src/code.py:43-58 | exactly the four move codes have names, and different moves have different codes and names |
| Levels.DifficultyRanges | src/code.py:60-81 | the ranges EASY 0-2, MEDIUM 3-5, HARD 6-9 are contiguous, cover 0..9 and do not overlap; each level asks for 1..4 commands and is numbered index+1 |
| Levels.DiffStart | src/code.py:77-81 | the first level index of a difficulty; `DifficultyRanges` states the ranges |
| Levels.DiffEnd | src/code.py:77-81 | the last level index of a difficulty; `DifficultyRanges` states the ranges |
| Levels.EveryMoveCanBeDrawn | src/code.py:329-333 | every move is in the pool `ALL_MOVES` the generator draws from |
| Levels.AllMovesOnce | src/code.py:329 | the pool holds the four moves once each |
| Levels.Drawn | src/code.py:324-334 | the moves that n successive random choices pick; `GenerateSequence` computes it |
| Levels.GenerateSequence | src/code.py:324-334 | the sequence has the level's command count, and each element is the move drawn at that position |
| Gesture.Ema | src/code.py:207-208 | the filter output lies between the old value and the reading, and moves 0.4 of the way toward the reading |
| Gesture.Mean | src/code.py:184-196 | the component-wise mean of the samples; `CalibrateBaseline` computes it and `MeanOfStationary` states it for a device at rest |
| Gesture.CalibrateBaseline | src/code.py:184-196 | the accumulator loop computes the component-wise mean of the samples |
| Gesture.SumOfConstant | src/code.py:188-193 | the sum of n equal samples is n times the sample |
| Gesture.MeanOfStationary | src/code.py:184-196 | a device at rest reading the same vector calibrates to that vector |
| Gesture.SteadyStep | src/code.py:699-708 | one tick of the steady timer; `TimerIsHoldStart`, `HoldStartSetsTimer`, `SteadyVerdict` and `GameRules.SteadyRunVerdict` state what it computes over a run |
| Gesture.ShakeDetected | src/code.py:710-713 | a smoothed deviation above the shake threshold; `GameRules.WaitInputStepFacts` states its use as the SHAKE verdict |
| Gesture.TimerIsHoldStart | src/code.py:699-708 | a set steady timer holds the time of the tick that started the last unbroken run below the threshold |
| Gesture.HoldStartSetsTimer | src/code.py:699-708 | after an unbroken run below the threshold the timer holds the run's first tick |
| Gesture.SteadyVerdict | src/code.py:699-708 | the steady timer function over a run of readings: one more step succeeds exactly when its reading and every reading since some tick k are below 0.4 and at least 600 ms have passed since k |
| HighScores.Take | src/code.py:479 | a prefix of length min(len, n) |
| HighScores.InsertDesc | src/code.py:478 | inserting into the sorted list adds exactly the entry (as a multiset) |
| HighScores.InsertDescSorted | src/code.py:478 | insertion keeps a descending table descending |
| HighScores.SortDesc | src/code.py:478 | the descending sort is a permutation and is sorted; `SortDescStable` states that it keeps ties in order, as CPython's sort does |
| HighScores.InsertDescStable | src/code.py:478 | with CPython's tie order: inserting into a descending table puts the entry after every entry of its score and leaves the order among each score as it was |
| HighScores.SortDescStable | src/code.py:478-479 | with CPython's stable sort: for every score, the entries with that score leave the sort in the order they came in, so the cut to three keeps the earliest of tied entries |
| HighScores.InsertDescAtEnd | src/code.py:478 | an entry no better than any other goes last |
| HighScores.SortDescSorted | src/code.py:478 | sorting an already sorted table leaves it as it is |
| HighScores.Rank | src/code.py:492-495 | the first index whose score is strictly below the candidate, or the length |
| HighScores.InsertDescAtRank | src/code.py:478 | the new entry lands at its rank, after every entry scoring at least as much |
| HighScores.CheckHighscore | src/code.py:489-496 | the result is in -1..len; it is len when there is room; otherwise it is the first strictly beaten index, or -1 exactly when no entry is beaten |
| HighScores.CheckHighscoreIndex | src/code.py:489-496 | the early-returning scan computes `CheckHighscore` |
| HighScores.RankIsFirstBeaten | src/code.py:492-495 | an index the scan stops at is the rank |
| HighScores.Insert | src/code.py:770-772 | append, sort descending, keep three; `InsertQualifying`, `InsertPlacement`, `InsertValid` and `RefusedIffUnchanged` state its properties |
| HighScores.InsertQualifying | src/code.py:767-773 | a qualifying entry: the table stays sorted, has min(len+1, 3) entries and contains the new entry at its rank, which for a full table is the index the check returned |
| HighScores.InsertPlacement | src/code.py:770-772 | with CPython's stable sort, append, sort and cut equals placing the entry at its rank and cutting |
| HighScores.DefaultTableSorts | src/code.py:471-479 | with no file, sorting and cutting leave the three placeholders as they are |
| HighScores.SortedScoresUnique | src/code.py:478 | any two descending arrangements of the same entries show the same scores, whatever their tie order |
| HighScores.AnySortInsert | src/code.py:770-772 | with any descending sort, stable or not: the table cut to three shows the scores `Insert` shows, position by position, holds only old entries and the new one, and keeps a qualifying new entry |
| HighScores.QualifyingKept | src/code.py:770-772 | in a full table the cut drops a lowest score, so an entry that beats some old entry is kept, whatever the tie order |
| HighScores.RefusedIffUnchanged | src/code.py:767-773 | the check refuses a score exactly when inserting it would leave the table unchanged |
| HighScores.SortTakeStorable | src/code.py:478-479 | sorting and cutting keep the names storable |
| HighScores.InsertValid | src/code.py:770-772 | inserting keeps a table the game can hold |
| HighScores.ParseLine | src/code.py:459-471 | one line of the file read as an entry, or skipped; `ParseLineTolerant`, `ParsedNamesStorable` and `FormattedLineParses` state its properties |
| HighScores.ParseLineTolerant | src/code.py:459-469 | any line is skipped exactly when it is blank after stripping or does not hold exactly one comma; otherwise the name is the stripped text before the comma and the score is `int()` of the text after it, or 0 where `int()` fails |
| HighScores.ParseLines | src/code.py:458-471 | the entries of the lines that parse, in file order; `ParseLinesStorable`, `ParseLinesSnoc` and `ParseSerialized` state its properties |
| HighScores.LoadTable | src/code.py:453-480 | the loaded table is sorted with at most 3 entries, and a missing file gives AAA/BBB/CCC at 0 |
| HighScores.LoadHighscores | src/code.py:453-480 | the line loop, the sort and the cut compute `LoadTable` |
| HighScores.StripDropsNewline | src/code.py:459 | stripping a line removes its line break |
| HighScores.ParsedNamesStorable | src/code.py:459-466 | a parsed name has no comma, no newline and no surrounding whitespace |
| HighScores.ParseLinesStorable | src/code.py:458-471 | every name read from the file is storable |
| HighScores.StorableSnoc | src/code.py:471 | appending a storable entry keeps the names storable |
| HighScores.DefaultTableValid | src/code.py:474-478 | the placeholder table is one the game can hold |
| HighScores.LoadedTableValid | src/code.py:453-480 | whatever the file holds, the loaded table is sorted, short and storable |
| HighScores.FileLinesShaped | src/code.py:458 | each line the file yields has a newline only at its end |
| HighScores.FormatEntry | src/code.py:486 | one `name,score` line; `FormattedLine` and `FormattedLineParses` state its properties |
| HighScores.Serialize | src/code.py:483-486 | the written file is empty or ends with a newline |
| HighScores.SaveHighscores | src/code.py:483-486 | the loop writes one `name,score` line per entry, in table order |
| HighScores.FormattedLineParses | src/code.py:459-471 | a written line parses back to its entry |
| HighScores.FormattedLine | src/code.py:486 | one written entry is one line of the file |
| HighScores.ParseLinesSnoc | src/code.py:458-471 | a parsing line at the end adds its entry at the end |
| HighScores.SerializedLines | src/code.py:485-486 | each written entry adds exactly one line |
| HighScores.ParseSerialized | src/code.py:453-486 | parsing the lines of a written table gives the table back |
| HighScores.SaveLoadRoundTrip | src/code.py:453-486 | saving a sorted table of at most 3 storable names and loading it back gives the same table |
| Text.TrimStart | src/code.py:459 | removes exactly the leading whitespace |
| Text.TrimEnd | src/code.py:459 | removes exactly the trailing whitespace |
| Text.Strip | src/code.py:459 | the result is a middle slice with only whitespace cut from both ends, and neither starts nor ends with whitespace |
| Text.StripTrimmed | src/code.py:465 | stripping a trimmed string changes nothing |
| Text.StripTrailingSpace | src/code.py:459 | stripping a trimmed string plus a trailing space gives the string |
| Text.Split | src/code.py:462 | one more part than separators; parts are separator-free and join back to the string |
| Text.SplitNoSeparator | src/code.py:462 | a string without separator is one part |
| Text.SplitPair | src/code.py:462-463 | two separator-free halves joined by a comma split into exactly those two |
| Text.SplitOnce | src/code.py:462-463 | a string with one separator splits into the text before it and the text after it |
| Text.LineLength | src/code.py:458 | a line runs up to and including the first newline |
| Text.LineLengthAt | src/code.py:458 | a line ending at the first newline has that length |
| Text.Lines | src/code.py:458 | non-empty content yields at least one line |
| Text.LinesShape | src/code.py:458 | the lines concatenate back to the content, and a newline ends every line but the last and is nowhere else |
| Text.LinesConcat | src/code.py:458 | the lines concatenate back to the content |
| Text.LinesBreaks | src/code.py:458 | newlines only at line ends, on every line but the last |
| Text.LinesOfOneLine | src/code.py:458 | a newline-terminated line is read as itself |
| Text.LinesAppend | src/code.py:458 | after a complete line, the lines of a concatenation are the lines of the parts |
| Text.DigitChar | src/code.py:486 | a decimal digit character |
| Text.NatToString | src/code.py:486 | a non-empty string of digits |
| Text.IntToString | src/code.py:486 | the formatted score is trimmed, ends in a digit and holds no comma or newline |
| Text.ParseInt | src/code.py:465-467 | `int()` of a string, `None` where Python raises; `DigitsOfNat`, `ParseFormattedInt`, `ParseOfTrimmed`, `ParseNegative` and `ParseUnsigned` state its properties |
| Text.DigitsOfNat | src/code.py:465-467 | the digits of n are read back as n |
| Text.ParseFormattedInt | src/code.py:465-467 | `int()` of a formatted integer gives that integer |
| Text.ParseOfTrimmed | src/code.py:465 | on a trimmed string `int()` skips no whitespace |
| Text.ParseNegative | src/code.py:465 | a minus sign and digits read as the negated value |
| Text.ParseUnsigned | src/code.py:465 | digits alone read as their value |
| Diffuser.Boot | src/code.py:218-252 | the globals at start-up; `GameRules.BootInv` and `GameEngine.Engine.constructor` state its properties |
| Diffuser.Next | src/code.py:545-789 | one iteration of the loop; `GameRules.NextPreservesInv`, `GameRules.NextKeepsSaved`, `GameRules.TableUntouched`, `GameRules.ScoreChange`, the `GameRules.*StepFacts` lemmas and `GameEngine.Engine.Tick` state its properties |
| Diffuser.SplashStep | src/code.py:609-620 | the SPLASH branch; `GameRules.SplashStepFacts` and `GameEngine.Engine.SplashTick` state it |
| Diffuser.NameStep | src/code.py:623-649 | the NAME_INPUT branch; `GameRules.NameInputStepFacts` and `GameEngine.Engine.NameInputTick` state it |
| Diffuser.Rotated | src/code.py:623-637 | the NAME_INPUT letter wheel; `GameRules.NameInputStepFacts` states that a rotation moves only the selected letter one step toward its sign |
| Diffuser.MenuStep | src/code.py:652-676 | the MENU branch; `GameRules.MenuStepFacts` and `GameEngine.Engine.MenuTick` state it |
| Diffuser.Prepared | src/code.py:657-676 | the round of a newly started level; `GameRules.StartLevelReady` states it is ready from its first command |
| Diffuser.StartLevel | src/code.py:657-676 | a level started from MENU or from LEVEL_RESULT (src/code.py:741-757); `GameRules.StartLevelReady`, `GameRules.MenuStepFacts`, `GameRules.LevelResultStepFacts` and `GameEngine.Engine.BeginLevel` state it |
| Diffuser.InitStep | src/code.py:678-682 | the INIT_LEVEL branch; `GameRules.InitLevelStepFacts` and `GameEngine.Engine.InitLevelTick` state it |
| Diffuser.WaitStep | src/code.py:684-737 | the WAIT_INPUT branch; `GameRules.WaitInputStepFacts`, `GameRules.WaitStepInv` and `GameEngine.Engine.WaitInputTick` state it |
| Diffuser.Sensed | src/code.py:689-713 | the filter and steady timer after a WAIT_INPUT tick; `GameRules.SteadyTickIsTimerStep` and `GameEngine.Engine.SenseCommand` state it |
| Diffuser.Filtered | src/code.py:698-713 | the filter is advanced only for STEADY and SHAKE; `GameRules.SteadyTickIsTimerStep` and `GameEngine.Engine.FilterDeviation` state it |
| Diffuser.SteadyAfter | src/code.py:698-708 | only a STEADY command runs the steady timer; `GameRules.SteadyTickIsTimerStep` states it |
| Diffuser.Succeeds | src/code.py:689-713 | the matcher's verdict on the current command; `GameRules.WaitInputStepFacts` states it per command |
| Diffuser.Completed | src/code.py:715-730 | a met command's points and the next command; `GameRules.CompletedInv`, `GameRules.WaitInputStepFacts` and `GameEngine.Engine.CompleteCommand` state it |
| Diffuser.Advanced | src/code.py:715-729 | the next command with a cleared timer, or the won level and whether it was the last; `GameRules.CompletedInv` and `GameRules.WaitInputStepFacts` state it |
| Diffuser.TimedOut | src/code.py:731-737 | a lost level on LEVEL_RESULT; `GameRules.WaitInputStepFacts` states when it happens |
| Diffuser.Recorded | src/code.py:767-773 | the recording of a lost game's score; `GameRules.RecordedKeepsTable` and `GameEngine.Engine.RecordScore` state it |
| Diffuser.MachineStep | src/code.py:582-787 | the dispatch on the state; `GameEngine.Engine.Dispatch` and the `GameRules.*StepFacts` lemmas state it |
| Diffuser.ResultStep | src/code.py:739-776 | the LEVEL_RESULT branch; `GameRules.LevelResultStepFacts`, `GameRules.ResultStepInv` and `GameEngine.Engine.LevelResultTick` state it |
| Diffuser.ShowStep | src/code.py:779-787 | the HS_SHOW branch; `GameRules.HsShowStepFacts` and `GameEngine.Engine.HsShowTick` state it |
| Diffuser.Encoded | src/code.py:548-574 | the encoder step changes only the cursor and the last position; outside MENU the cursor is untouched; the cursor stays on 0..3 |
| Diffuser.Polled | src/code.py:548-580 | after encoder and button only the cursor and the knob's readings may differ, the button level is the new one |
| GameRules.NameStorable | src/code.py:646 | a three-letter name can be written to the file |
| GameRules.BootInv | src/code.py:218-252 | the loop starts in SPLASH with score 0, cursor 1, name AAA and the table loaded from the file, and the invariant holds |
| GameRules.DefaultNameIsName | src/code.py:226 | AAA is a valid name |
| GameRules.SplashStepFacts | src/code.py:609-620 | after more than 3 s the loop enters NAME_INPUT with letter 0 selected and the current position as reference; before that it stays |
| GameRules.NameInputStepFacts | src/code.py:623-649 | a rotation moves only the selected letter one step in its direction; a press advances the letter index 0→1→2; a press on the last letter commits the name and opens MENU on row 1 |
| GameRules.MenuStepFacts | src/code.py:553-676 | in MENU the cursor moves one row toward the rotation and stays on 0..3; a press on a difficulty row starts its first level with a fresh sequence and calibration, command 0, a cleared steady timer and INIT_LEVEL |
| GameRules.StartLevelReady | src/code.py:660-676 | a level started inside the chosen difficulty is ready from its first command |
| GameRules.InitLevelStepFacts | src/code.py:678-682 | after more than 1 s WAIT_INPUT is entered and the level clock restarts, so the time limit counts from there |
| GameRules.WaitInputStepFacts | src/code.py:684-737 | a met command adds 10 and advances; the last one adds 50 more and ends in success; a met command wins over the deadline; otherwise the level is lost exactly when the time limit has passed, with the score kept |
| GameRules.LevelResultStepFacts | src/code.py:739-776 | on a press: a won level that is not the last starts the next level inside the difficulty; the last returns to MENU on row 1 keeping the score; a lost game records a qualifying score, writes the file and shows HS_SHOW |
| GameRules.HsShowStepFacts | src/code.py:779-787 | a press resets the score to 0, the letters to AAA and the letter index to 0, and enters NAME_INPUT |
| GameRules.ScoreChange | src/code.py:715-723 | the score changes only by +10 or +60 in WAIT_INPUT and is reset to 0 only by a press in HS_SHOW |
| GameRules.RecordedKeepsTable | src/code.py:767-773 | recording keeps a valid table, and when a score qualifies the new file loads back as the new table |
| GameRules.PolledInv | src/code.py:548-580 | the encoder and button steps keep the invariant |
| GameRules.SplashKeepsInv | src/code.py:583-620 | SPLASH keeps the invariant |
| GameRules.NameInputKeepsInv | src/code.py:623-649 | NAME_INPUT keeps the invariant |
| GameRules.MenuKeepsInv | src/code.py:652-676 | MENU keeps the invariant |
| GameRules.InitLevelKeepsInv | src/code.py:678-682 | INIT_LEVEL keeps the invariant |
| GameRules.CompletedInv | src/code.py:715-730 | completing a command keeps the invariant |
| GameRules.WaitStepInv | src/code.py:684-737 | the WAIT_INPUT branch keeps the invariant, so the command index stays inside the sequence |
| GameRules.WaitInputKeepsInv | src/code.py:684-737 | WAIT_INPUT keeps the invariant |
| GameRules.ResultStepInv | src/code.py:739-776 | the next level exists, and the LEVEL_RESULT branch keeps the invariant |
| GameRules.LevelResultKeepsInv | src/code.py:739-776 | LEVEL_RESULT keeps the invariant |
| GameRules.HsShowKeepsInv | src/code.py:779-787 | HS_SHOW keeps the invariant |
| GameRules.SteadyTickIsTimerStep | src/code.py:684-737 | on a STEADY command the tick's verdict is the steady timer's, the filter takes the new reading, and a pending tick changes the round only in its timer |
| GameRules.Iterate | src/code.py:545-789 | the state after a run of iterations keeps the invariant |
| GameRules.SteadyReadings | src/code.py:689-708 | one reading per iteration of the run |
| GameRules.SteadyRunStep | src/code.py:684-708 | one more pending STEADY iteration advances the loop's timer by one step of the steady timer function |
| GameRules.SteadyRunTimer | src/code.py:684-708 | over a run of WAIT_INPUT iterations on one pending STEADY command the loop's timer is the steady timer function of the run's readings, and the rest of the round is unchanged |
| GameRules.SteadyRunVerdict | src/code.py:684-708 | after such a run the next iteration meets STEADY exactly when its reading and every reading since some iteration k are below 0.4 and at least 600 ms have passed since k |
| GameRules.NextPreservesInv | src/code.py:545-789 | every iteration keeps the invariant |
| GameRules.NextKeepsSaved | src/code.py:545-789 | every iteration keeps the table in memory equal to what loading the file gives |
| GameRules.TableUntouched | src/code.py:545-789 | outside the recording of a lost game an iteration leaves table and file alone |
| GameEngine.Engine.constructor | src/code.py:164-252 | the globals start as `Boot` says, with the table loaded by the loader loop, and the invariant holds |
| GameEngine.Engine.Tick | src/code.py:545-789 | one iteration updates the globals in place to exactly `Next` of the old ones, and keeps the invariant and the file agreement |
| GameEngine.Engine.Dispatch | src/code.py:582-787 | the state branches compute the value-level step |
| GameEngine.Engine.ReadEncoder | src/code.py:548-574 | the in-place cursor arithmetic and clamp compute `Encoded`; DIAL is reported for any change outside MENU |
| GameEngine.Engine.ReadButton | src/code.py:578-580 | the press is the falling edge, and the level is kept |
| GameEngine.Engine.SplashTick | src/code.py:609-620 | computes `SplashStep` |
| GameEngine.Engine.NameInputTick | src/code.py:623-649 | the in-place letter update with `% 26` computes `NameStep` |
| GameEngine.Engine.BeginLevel | src/code.py:660-676 | configuration, generated sequence, calibration loop and clocks compute `StartLevel` |
| GameEngine.Engine.MenuTick | src/code.py:652-676 | computes `MenuStep` |
| GameEngine.Engine.InitLevelTick | src/code.py:678-682 | computes `InitStep` |
| GameEngine.Engine.FilterDeviation | src/code.py:198-209 | the filter update returns and stores `Ema` of the reading and the previous value |
| GameEngine.Engine.SenseCommand | src/code.py:689-713 | the matcher's verdict is `Succeeds`, and the filter and steady timer end as `Sensed` says |
| GameEngine.Engine.CompleteCommand | src/code.py:715-730 | computes `Completed` |
| GameEngine.Engine.WaitInputTick | src/code.py:684-737 | computes `WaitStep` |
| GameEngine.Engine.RecordScore | src/code.py:767-773 | check, append, sort, cut and save compute `Recorded` |
| GameEngine.Engine.LevelResultTick | src/code.py:739-776 | computes `ResultStep` |
| GameEngine.Engine.HsShowTick | src/code.py:779-787 | computes `ShowStep` |
| MenuPrototype.Boot | src/menu.py:51-61 | EASY selected, the menu state, the encoder and button read once |
| MenuPrototype.Setup | src/menu.py:51-83 | the set-up before the loop: the menu state with EASY selected, the encoder and button read once, and one menu redraw of the selected row |
| MenuPrototype.Rotated | src/menu.py:89-111 | the encoder part of an iteration; `RotationMovesOneRow` and `Menu.Rotate` state it |
| MenuPrototype.Step | src/menu.py:86-135 | one iteration of the prototype; `StepKeepsValid`, `RotationMovesOneRow`, `ButtonTracked`, `MenuTransitions`, `InitGameTransitions` and `Menu.Tick` state its properties |
| MenuPrototype.StepKeepsValid | src/menu.py:94-106 | the cursor stays on rows 0..2 |
| MenuPrototype.RotationMovesOneRow | src/menu.py:91-108 | a rotation moves the cursor exactly one row toward its sign, clamped to 0..2, in either state; the reference position changes only to a different position |
| MenuPrototype.ButtonTracked | src/menu.py:117-119 | the button level is stored on every iteration |
| MenuPrototype.MenuTransitions | src/menu.py:122-127 | in the menu a press edge records the time and enters the confirmation state, drawing the start screen last; without a press the state stays and only menu redraws happen |
| MenuPrototype.InitGameTransitions | src/menu.py:129-133 | the confirmation state returns to the menu only after more than 2 s, redrawing it, and keeps the chosen row; a rotation there is not drawn |
| MenuPrototype.RunKeepsValid | src/menu.py:86-135 | every state reached keeps the cursor on the rows |
| MenuPrototype.StillDialKeepsSelection | src/menu.py:86-135 | without rotation the selection survives any run of iterations |
| MenuPrototype.Menu.constructor | src/menu.py:51-62 | the globals start as `Boot` says |
| MenuPrototype.Menu.Tick | src/menu.py:86-135 | one iteration updates the globals in place to exactly `Step` and returns its redraws |
| MenuPrototype.Menu.Rotate | src/menu.py:89-111 | the in-place increment and clamp compute `Rotated` |

## Left out

- Display, NeoPixel and buzzer output: `draw_menu`, the `show_*` screens, the
  splash animation, colours and sounds, and `time.sleep`. They do not affect
  the state. The prototype records only which screen it draws.
- Hardware setup and drivers: the encoder's decoding, the I2C bus and the
  ADXL345. The encoder is the pair (changed, position), the button a level.
- `Gesture.IsDeviation`: `math.sqrt` is not computed. The deviation is an
  input whose square equals the squared distance to the baseline.
- Floating point: readings, the filter and the mean are exact reals. Times are
  integer milliseconds (`time.monotonic()` seconds × 1000), so 4.5 s is 4500.
- `random.choice`: the draws are an input of indices into the four moves.
- `Text.Lines`: text-mode newline translation (`\r\n`) is not modelled. A file
  is split at `\n` only.
- `Text.ParseInt`: underscores between digits and non-ASCII digits, which
  Python's `int()` also accepts, are not modelled.
- `Text.Strip`: only the ASCII blanks (space, tab, line feed, vertical tab,
  form feed, carriage return) count as whitespace, as in CircuitPython's
  `str.strip()` and `int()`; the wider Unicode set of CPython is not modelled.
- `HighScores.SortDesc`: ties are ordered as CPython's stable `sorted` orders
  them. CircuitPython's `sorted` is a quicksort that need not keep tied entries
  in order, so on the device the entries tied below a new score may end up in
  a different order, and a different one of them may be cut. The scores shown,
  which entries can appear and whether the new entry is kept do not depend on
  this (`HighScores.AnySortInsert`). `Diffuser.Recorded` and
  `GameEngine.Engine.RecordScore` inherit the CPython order.
- `HighScores.SortDescStable`: states CPython's tie order, see `HighScores.SortDesc`.
- `HighScores.InsertDescStable`: states CPython's tie order, see `HighScores.SortDesc`.
- `HighScores.InsertPlacement`: the placement below the new entry is CPython's tie order, see `HighScores.SortDesc`.
- `HighScores.InsertQualifying`: its equality with placing the entry at its rank, and that rank, follow CPython's tie order, see `HighScores.SortDesc`.
- `HighScores.Insert`: names among tied entries follow CPython's tie order, see `HighScores.SortDesc`.
- File I/O: the file is its whole contents or `None` when it does not exist.
  No read or write error other than a missing file is modelled, and a write
  is assumed to replace the contents entirely.
- `current_level_num` is displayed only and not kept. The level number is in
  the table (`levelNum`).
- `print` in `src/menu.py` is left out.
- The scripts under `lib/` are demos that the game does not use.

## Behaviour of the code worth knowing

- DIAL is met whenever the encoder's `update()` reports a change outside
  MENU, even if the position equals the last one (src/code.py:571-574).
- The filtered deviation is not reset at a calibration
  (src/code.py:89-90, 198-209). It carries over between levels, and it
  changes only on ticks whose current command is STEADY or SHAKE.
- The score is not reset when a game starts from MENU: the reset at
  src/code.py:656 is commented out. A cleared difficulty returns to MENU
  with the score kept, and the score goes back to 0 only in HS_SHOW.
- HS_SHOW resets the letters being entered, not the committed name
  (src/code.py:779-787). The old name stays until the new one is
  committed.
- `check_highscore` returns the length of a table with room left. That index
  is where the entry is appended, not necessarily where the sort places it;
  `HighScores.Rank` is that place.
