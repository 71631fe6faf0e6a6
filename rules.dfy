/** What one iteration of the game loop does in each state, the invariant every
    iteration keeps, and how the score may change. */
module GameRules {
  import opened Options
  import opened Text
  import opened Controls
  import opened Levels
  import opened Gesture
  import opened HighScores
  import opened Diffuser

  /** A falling edge of the button on this iteration. */
  predicate Pressed(g: Game, inp: Inputs) {
    PressEdge(g.knob.lastButton, inp.button)
  }

  /** The cursor after the encoder step of a menu iteration. */
  function CursorAfter(g: Game, inp: Inputs): int {
    if inp.changed && inp.position != g.knob.lastPosition
    then StepCursor(g.menuIndex, inp.position - g.knob.lastPosition, MenuLast)
    else g.menuIndex
  }

  /** When the current command of a WAIT_INPUT iteration is met: CUT WIRE by a
      press, DIAL by any reported rotation, SHAKE by a smoothed deviation above
      the shake threshold, STEADY by a smoothed deviation below the steady
      threshold while a hold timer, started on an earlier tick, has run for
      the hold time. */
  predicate CommandMet(g: Game, inp: Inputs)
    requires 0 <= g.round.cmdIndex < |g.round.sequence|
  {
    match g.round.sequence[g.round.cmdIndex]
    case CutWire => Pressed(g, inp)
    case Dial => inp.changed
    case Steady =>
      && Ema(inp.deviation, g.sensor.filtered) < SteadyThreshold
      && g.round.steadyStart.Some?
      && inp.now - g.round.steadyStart.value >= SteadyHoldMs
    case Shake => Ema(inp.deviation, g.sensor.filtered) > ShakeThreshold
  }

  lemma NameStorable(s: string)
    requires IsName(s)
    ensures StorableName(s)
  {
    assert !IsSpace(s[0]) && !IsSpace(s[|s| - 1]);
    assert forall i :: 0 <= i < |s| ==> s[i] != ',' && s[i] != '\n';
  }

  /** The loop starts in SPLASH with score 0, the table loaded from the file
      (or the three placeholders without one) and the invariant holding. */
  lemma BootInv(now: int, position: int, button: bool, file: Option<string>)
    ensures var g := Boot(now, position, button, file);
      && Inv(g) && Saved(g) && g.phase == Splash && g.score == 0 && g.splashStart == now
      && g.store.table == LoadTable(file)
      && (file.None? ==> g.store.table == DefaultTable)
      && g.player.name == DefaultName && g.menuIndex == FirstDifficultyRow
  {
    LoadedTableValid(file);
    DefaultNameIsName();
  }

  lemma DefaultNameIsName()
    ensures IsName(DefaultName)
  {
    assert DefaultName == ['A', 'A', 'A'];
  }

  /** SPLASH: after more than three seconds the loop enters NAME_INPUT with the
      first letter selected and the encoder position as reference. */
  lemma SplashStepFacts(g: Game, inp: Inputs)
    requires Inv(g) && WellFormed(inp) && g.phase == Splash
    ensures var h := Next(g, inp);
      && h.score == g.score && h.player.initials == g.player.initials
      && (inp.now - g.splashStart > SplashMs ==>
            h.phase == NameInput && h.player.pos == 0 && h.player.lastPosition == inp.position)
      && (inp.now - g.splashStart <= SplashMs ==> h.phase == Splash)
  {
  }

  /** NAME_INPUT: a rotation moves the selected letter one step in its
      direction and no other letter; a press selects the next letter, and a
      press on the last letter commits the name and opens the menu on the
      first difficulty. */
  lemma NameInputStepFacts(g: Game, inp: Inputs)
    requires Inv(g) && WellFormed(inp) && g.phase == NameInput
    ensures var h := Next(g, inp);
      var k := g.player.pos;
      && IsName(h.player.initials)
      && h.player.initials[k] == (if inp.changed then LetterStep(g.player.initials[k], inp.position - g.player.lastPosition)
                           else g.player.initials[k])
      && (forall i :: 0 <= i < NameLength && i != k ==> h.player.initials[i] == g.player.initials[i])
      && h.player.lastPosition == (if inp.changed then inp.position else g.player.lastPosition)
      && h.score == g.score
      && (!Pressed(g, inp) ==> h.phase == NameInput && h.player.pos == k && h.player.name == g.player.name)
      && (Pressed(g, inp) && k < NameLength - 1 ==> h.phase == NameInput && h.player.pos == k + 1)
      && (Pressed(g, inp) && k == NameLength - 1 ==>
            h.phase == Menu && h.player.name == h.player.initials && h.menuIndex == FirstDifficultyRow)
  {
  }

  /** MENU: the cursor moves one row toward the rotation and stays on rows
      0..3; a press on a difficulty row starts that difficulty's first level
      with a fresh sequence and calibration, command 0 and a cleared steady
      timer; anything else stays in the menu. The score is kept. */
  lemma MenuStepFacts(g: Game, inp: Inputs)
    requires Inv(g) && WellFormed(inp) && g.phase == Menu
    ensures var h := Next(g, inp);
      var c := CursorAfter(g, inp);
      && h.menuIndex == c && 0 <= c <= MenuLast
      && h.knob.lastPosition == (if inp.changed && inp.position != g.knob.lastPosition then inp.position else g.knob.lastPosition)
      && h.score == g.score
      && (Pressed(g, inp) && c >= FirstDifficultyRow ==>
            && h.phase == InitLevel
            && h.round.diffIndex == c - 1
            && h.round.levelIndex == DiffStart(c - 1)
            && h.round.cmdIndex == 0 && h.round.steadyStart == None && h.round.levelStart == inp.now
            && h.round.required == LevelTable[h.round.levelIndex].commands
            && 1 <= h.round.required <= MaxCommands
            && h.round.sequence == Drawn(h.round.required, inp.draws)
            && h.round.timeLimit == LevelTable[h.round.levelIndex].timeLimitMs
            && h.sensor.baseline == Mean(inp.samples))
      && (!(Pressed(g, inp) && c >= FirstDifficultyRow) ==> h.phase == Menu && h.round.diffIndex == g.round.diffIndex)
  {
    var p := Polled(g, inp);
    var c := CursorAfter(g, inp);
    assert p.menuIndex == c;
    DifficultyRanges(0, 0);
    if Pressed(g, inp) && c >= FirstDifficultyRow {
      var h := StartLevel(p.(round := p.round.(diffIndex := c - 1)), DiffStart(c - 1), inp);
      assert Next(g, inp) == h;
      assert h.sensor.baseline == Mean(inp.samples);
    }
  }

  /** A level started inside the chosen difficulty is ready to be played from
      its first command. */
  lemma StartLevelReady(g: Game, li: nat, inp: Inputs)
    requires WellFormed(inp) && 0 <= g.round.diffIndex < |Difficulties|
    requires DiffStart(g.round.diffIndex) <= li <= DiffEnd(g.round.diffIndex)
    ensures var h := StartLevel(g, li, inp);
      LevelReady(h.round) && h.phase == InitLevel && 0 == h.round.cmdIndex < h.round.required
  {
    DifficultyRanges(li, g.round.diffIndex);
  }

  /** INIT_LEVEL: after more than a second the loop enters WAIT_INPUT and
      restarts the level clock there, so the time limit counts from that
      moment. */
  lemma InitLevelStepFacts(g: Game, inp: Inputs)
    requires Inv(g) && WellFormed(inp) && g.phase == InitLevel
    ensures var h := Next(g, inp);
      && h.score == g.score && h.round.cmdIndex == g.round.cmdIndex && h.round.sequence == g.round.sequence
      && (inp.now - g.round.levelStart > SettleMs ==>
            h.phase == WaitInput && h.round.levelStart == inp.now && h.round.steadyStart == None)
      && (inp.now - g.round.levelStart <= SettleMs ==> h.phase == InitLevel && h.round.levelStart == g.round.levelStart)
  {
  }

  /** WAIT_INPUT: a met command scores 10 and advances to the next one,
      clearing the steady timer; meeting the last one scores 50 more and ends
      the level in success. A met command wins over the deadline; otherwise
      the level is lost exactly when the time limit has passed since the level
      clock started, and the score and command index stay. */
  lemma WaitInputStepFacts(g: Game, inp: Inputs)
    requires Inv(g) && WellFormed(inp) && g.phase == WaitInput
    ensures var h := Next(g, inp);
      var cmd := g.round.sequence[g.round.cmdIndex];
      && h.sensor.filtered == (if cmd == Steady || cmd == Shake then Ema(inp.deviation, g.sensor.filtered) else g.sensor.filtered)
      && (CommandMet(g, inp) ==>
            && h.round.cmdIndex == g.round.cmdIndex + 1 && h.round.steadyStart == None
            && (h.round.cmdIndex == g.round.required ==>
                  h.phase == LevelResult && h.round.success && h.score == g.score + PointPerCommand + PointPerLevel
                  && h.round.isLast == (g.round.levelIndex == DiffEnd(g.round.diffIndex)))
            && (h.round.cmdIndex < g.round.required ==>
                  h.phase == WaitInput && h.score == g.score + PointPerCommand))
      && (!CommandMet(g, inp) ==>
            && h.score == g.score && h.round.cmdIndex == g.round.cmdIndex
            && (inp.now - g.round.levelStart >= g.round.timeLimit ==> h.phase == LevelResult && !h.round.success && !h.round.isLast)
            && (inp.now - g.round.levelStart < g.round.timeLimit ==> h.phase == WaitInput))
      && (!CommandMet(g, inp) && cmd == Steady ==>
            h.round.steadyStart == (if h.sensor.filtered < SteadyThreshold
                              then Some(if g.round.steadyStart.None? then inp.now else g.round.steadyStart.value)
                              else None))
      && (cmd != Steady && !CommandMet(g, inp) ==> h.round.steadyStart == g.round.steadyStart)
  {
    var p := Polled(g, inp);
    assert p.round == g.round && p.sensor == g.sensor && p.score == g.score;
    assert Next(g, inp) == WaitStep(p, inp, Pressed(g, inp), inp.changed);
    assert Succeeds(p, inp, Pressed(g, inp), inp.changed) == CommandMet(g, inp);
  }

  /** LEVEL_RESULT, on a press: a won level that is not the last of its
      difficulty starts the next level, still inside that difficulty; the last
      one returns to the menu keeping the score; a lost level records the
      score in the table when it qualifies, writes the file and shows the
      table. Without a press nothing moves on. */
  lemma LevelResultStepFacts(g: Game, inp: Inputs)
    requires Inv(g) && WellFormed(inp) && g.phase == LevelResult
    ensures var h := Next(g, inp);
      && h.score == g.score
      && (!Pressed(g, inp) ==> h.phase == LevelResult && h.store.table == g.store.table)
      && (Pressed(g, inp) && g.round.success && !g.round.isLast ==>
            && h.phase == InitLevel && h.round.levelIndex == g.round.levelIndex + 1 && h.round.diffIndex == g.round.diffIndex
            && DiffStart(h.round.diffIndex) <= h.round.levelIndex <= DiffEnd(h.round.diffIndex)
            && h.round.cmdIndex == 0 && h.round.levelStart == inp.now && h.round.steadyStart == None)
      && (Pressed(g, inp) && g.round.isLast ==>
            h.phase == Menu && h.menuIndex == FirstDifficultyRow && h.store.table == g.store.table)
      && (Pressed(g, inp) && !g.round.success ==>
            && h.phase == HsShow
            && (CheckHighscore(g.store.table, g.score) == -1 ==>
                  h.store.table == g.store.table && h.store.file == g.store.file)
            && (CheckHighscore(g.store.table, g.score) >= 0 ==>
                  && h.store.table == Insert(g.store.table, Entry(g.player.name, g.score))
                  && Entry(g.player.name, g.score) in h.store.table
                  && h.store.file == Some(Serialize(h.store.table))))
  {
    var p := Polled(g, inp);
    assert p.round == g.round && p.store == g.store && p.score == g.score && p.player == g.player;
    assert Next(g, inp) == ResultStep(p, inp, Pressed(g, inp));
    var e := Entry(g.player.name, g.score);
    if Pressed(g, inp) && !g.round.success && CheckHighscore(g.store.table, g.score) >= 0 {
      InsertQualifying(g.store.table, e);
    }
  }

  /** HS_SHOW: a press starts a new round at name entry with score 0, the
      letters back to AAA and the first letter selected; the committed name is
      kept until the new one is committed. */
  lemma HsShowStepFacts(g: Game, inp: Inputs)
    requires Inv(g) && WellFormed(inp) && g.phase == HsShow
    ensures var h := Next(g, inp);
      && (Pressed(g, inp) ==>
            && h.phase == NameInput && h.score == 0 && h.player.initials == DefaultName
            && h.player.pos == 0 && h.player.lastPosition == inp.position
            && h.player.name == g.player.name && h.store.table == g.store.table)
      && (!Pressed(g, inp) ==> h.phase == HsShow && h.score == g.score)
  {
  }

  /** The score changes only in two ways: a WAIT_INPUT iteration adds 10 or 60,
      and a press in HS_SHOW sets it back to 0. */
  lemma ScoreChange(g: Game, inp: Inputs)
    requires Inv(g) && WellFormed(inp)
    ensures var h := Next(g, inp);
      && (g.phase == HsShow && Pressed(g, inp) ==> h.score == 0)
      && (g.phase == WaitInput ==>
            h.score in {g.score, g.score + PointPerCommand, g.score + PointPerCommand + PointPerLevel})
      && (g.phase != WaitInput && !(g.phase == HsShow && Pressed(g, inp)) ==> h.score == g.score)
  {
    match g.phase
    case Splash => SplashStepFacts(g, inp);
    case NameInput => NameInputStepFacts(g, inp);
    case Menu => MenuStepFacts(g, inp);
    case InitLevel => InitLevelStepFacts(g, inp);
    case WaitInput => WaitInputStepFacts(g, inp);
    case LevelResult => LevelResultStepFacts(g, inp);
    case HsShow => HsShowStepFacts(g, inp);
  }

  lemma RecordedKeepsTable(g: Game)
    requires Inv(g)
    ensures ValidTable(Recorded(g).store.table)
    ensures CheckHighscore(g.store.table, g.score) >= 0 ==> Saved(Recorded(g))
    ensures CheckHighscore(g.store.table, g.score) == -1 ==> Recorded(g) == g
  {
    if CheckHighscore(g.store.table, g.score) >= 0 {
      var t := Insert(g.store.table, Entry(g.player.name, g.score));
      NameStorable(g.player.name);
      InsertValid(g.store.table, Entry(g.player.name, g.score));
      SaveLoadRoundTrip(t);
    }
  }

  /** The encoder and button step keeps everything the invariant speaks of
      except the cursor, which stays on rows 0..3. */
  lemma PolledInv(g: Game, inp: Inputs)
    requires Inv(g)
    ensures Inv(Polled(g, inp))
  {
  }

  lemma SplashKeepsInv(g: Game, inp: Inputs)
    requires Inv(g) && WellFormed(inp) && g.phase == Splash
    ensures Inv(Next(g, inp))
  {
    PolledInv(g, inp);
  }

  lemma NameInputKeepsInv(g: Game, inp: Inputs)
    requires Inv(g) && WellFormed(inp) && g.phase == NameInput
    ensures Inv(Next(g, inp))
  {
    PolledInv(g, inp);
    NameInputStepFacts(g, inp);
  }

  lemma MenuKeepsInv(g: Game, inp: Inputs)
    requires Inv(g) && WellFormed(inp) && g.phase == Menu
    ensures Inv(Next(g, inp))
  {
    var p := Polled(g, inp);
    PolledInv(g, inp);
    var c := p.menuIndex;
    if Pressed(g, inp) && c >= FirstDifficultyRow {
      var q := p.(round := p.round.(diffIndex := c - 1));
      DifficultyRanges(0, c - 1);
      StartLevelReady(q, DiffStart(c - 1), inp);
      assert Next(g, inp) == StartLevel(q, DiffStart(c - 1), inp);
    } else {
      assert Next(g, inp) == p;
    }
  }

  lemma InitLevelKeepsInv(g: Game, inp: Inputs)
    requires Inv(g) && WellFormed(inp) && g.phase == InitLevel
    ensures Inv(Next(g, inp))
  {
    PolledInv(g, inp);
  }

  lemma CompletedInv(s: Game)
    requires Inv(s) && s.phase == WaitInput
    ensures Inv(Completed(s))
  {
    PointsKeepMultiple(s.score);
    var h := Completed(s);
    assert h.store.table == s.store.table && h.store.file == s.store.file;
    assert IsName(h.player.initials) && IsName(h.player.name);
    if h.round.cmdIndex >= h.round.required {
      assert h.score == s.score + PointPerCommand + PointPerLevel;
    } else {
      assert h.score == s.score + PointPerCommand;
    }
    if h.phase == LevelResult {
      assert h.round.cmdIndex == h.round.required && h.round.success;
      assert h.round.isLast == (h.round.levelIndex == DiffEnd(h.round.diffIndex));
    }
  }

  lemma WaitStepInv(p: Game, inp: Inputs, pressed: bool, dial: bool)
    requires Inv(p) && p.phase == WaitInput
    ensures Inv(WaitStep(p, inp, pressed, dial))
  {
    var sensed := Sensed(p, inp);
    assert Inv(sensed);
    if Succeeds(p, inp, pressed, dial) {
      CompletedInv(sensed);
    } else if p.round.timeLimit - (inp.now - p.round.levelStart) <= 0 {
      assert Inv(TimedOut(sensed));
    }
  }

  lemma WaitInputKeepsInv(g: Game, inp: Inputs)
    requires Inv(g) && WellFormed(inp) && g.phase == WaitInput
    ensures Inv(Next(g, inp))
  {
    PolledInv(g, inp);
    WaitStepInv(Polled(g, inp), inp, Pressed(g, inp), inp.changed);
  }

  lemma ResultStepInv(p: Game, inp: Inputs, pressed: bool)
    requires Inv(p) && WellFormed(inp) && p.phase == LevelResult
    ensures p.round.success && !p.round.isLast ==> p.round.levelIndex + 1 < |LevelTable|
    ensures Inv(ResultStep(p, inp, pressed))
  {
    if !pressed {
    } else if p.round.success && !p.round.isLast {
      StartLevelReady(p, p.round.levelIndex + 1, inp);
    } else if p.round.isLast {
      assert Inv(p.(menuIndex := FirstDifficultyRow, phase := Menu));
    } else {
      RecordedKeepsTable(p);
      var h := Recorded(p).(phase := HsShow);
      assert h.store.table == Recorded(p).store.table;
      assert Inv(h);
    }
  }

  lemma LevelResultKeepsInv(g: Game, inp: Inputs)
    requires Inv(g) && WellFormed(inp) && g.phase == LevelResult
    ensures Inv(Next(g, inp))
  {
    PolledInv(g, inp);
    ResultStepInv(Polled(g, inp), inp, Pressed(g, inp));
  }

  lemma HsShowKeepsInv(g: Game, inp: Inputs)
    requires Inv(g) && WellFormed(inp) && g.phase == HsShow
    ensures Inv(Next(g, inp))
  {
    PolledInv(g, inp);
    DefaultNameIsName();
    var p := Polled(g, inp);
    if Pressed(g, inp) {
      var h := p.(score := 0, player := p.player.(pos := 0, initials := DefaultName, lastPosition := inp.position),
                  phase := NameInput);
      assert Next(g, inp) == h;
    } else {
      assert Next(g, inp) == p;
    }
  }

  /** Adding the points of a command, or of a command and the level bonus,
      keeps the score a multiple of ten. */
  lemma PointsKeepMultiple(x: int)
    requires x % PointPerCommand == 0
    ensures (x + PointPerCommand) % PointPerCommand == 0
    ensures (x + PointPerCommand + PointPerLevel) % PointPerCommand == 0
  {
    var q := x / PointPerCommand;
    assert x == PointPerCommand * q;
    assert x + PointPerCommand == PointPerCommand * (q + 1);
    assert x + PointPerCommand + PointPerLevel == PointPerCommand * (q + 6);
  }

  /** Every iteration keeps the invariant: the letters stay in A..Z, the
      letter index in 0..2, the cursor in 0..3, the score a non-negative
      multiple of 10, the table sorted with at most three entries and equal to
      what loading the file gives, the level inside its difficulty and the
      command index inside the sequence. */
  lemma NextPreservesInv(g: Game, inp: Inputs)
    requires Inv(g) && WellFormed(inp)
    ensures Inv(Next(g, inp))
  {
    match g.phase
    case Splash => SplashKeepsInv(g, inp);
    case NameInput => NameInputKeepsInv(g, inp);
    case Menu => MenuKeepsInv(g, inp);
    case InitLevel => InitLevelKeepsInv(g, inp);
    case WaitInput => WaitInputKeepsInv(g, inp);
    case LevelResult => LevelResultKeepsInv(g, inp);
    case HsShow => HsShowKeepsInv(g, inp);
  }

  /** Every iteration keeps the table in memory equal to what loading the
      file would give: the file is only written, with the new table, when a
      score is recorded. */
  lemma NextKeepsSaved(g: Game, inp: Inputs)
    requires Inv(g) && Saved(g) && WellFormed(inp)
    ensures Saved(Next(g, inp))
  {
    var h := Next(g, inp);
    if g.phase == LevelResult && Pressed(g, inp) && !g.round.success {
      var p := Polled(g, inp);
      RecordedKeepsTable(p);
      assert h == Recorded(p).(phase := HsShow);
    } else {
      TableUntouched(g, inp);
    }
  }

  /** Outside the recording of a lost game, an iteration leaves the table
      and the file alone. */
  lemma TableUntouched(g: Game, inp: Inputs)
    requires Inv(g) && WellFormed(inp)
    requires !(g.phase == LevelResult && Pressed(g, inp) && !g.round.success)
    ensures Next(g, inp).store.table == g.store.table && Next(g, inp).store.file == g.store.file
  {
  }
  /** A WAIT_INPUT iteration on a STEADY command: the filter takes the new
      reading, the verdict is the steady timer's, and an iteration that
      neither meets the command nor reaches the deadline changes the round
      only in its steady timer. */
  lemma SteadyTickIsTimerStep(g: Game, inp: Inputs)
    requires Inv(g) && WellFormed(inp) && g.phase == WaitInput
    requires g.round.sequence[g.round.cmdIndex] == Steady
    ensures var f := Ema(inp.deviation, g.sensor.filtered);
      var st := SteadyStep(g.round.steadyStart, inp.now, f);
      && CommandMet(g, inp) == st.success
      && Next(g, inp).sensor.filtered == f
      && (!st.success && inp.now - g.round.levelStart < g.round.timeLimit ==>
            Next(g, inp).phase == WaitInput && Next(g, inp).round == g.round.(steadyStart := st.start))
  {
    var p := Polled(g, inp);
    assert p.round == g.round && p.sensor == g.sensor;
    assert Next(g, inp) == WaitStep(p, inp, Pressed(g, inp), inp.changed);
  }

  /** The state after a run of iterations, one per input. */
  function Iterate(g: Game, ins: seq<Inputs>): (h: Game)
    requires Inv(g) && forall i :: 0 <= i < |ins| ==> WellFormed(ins[i])
    ensures Inv(h)
    decreases |ins|
  {
    if |ins| == 0 then g
    else
      var s := Iterate(g, ins[..|ins| - 1]);
      NextPreservesInv(s, ins[|ins| - 1]);
      Next(s, ins[|ins| - 1])
  }

  /** What the steady timer sees over a run: each iteration's time and
      smoothed deviation. */
  function SteadyReadings(g: Game, ins: seq<Inputs>): (rs: seq<Reading>)
    requires Inv(g) && forall i :: 0 <= i < |ins| ==> WellFormed(ins[i])
    ensures |rs| == |ins|
    decreases |ins|
  {
    if |ins| == 0 then []
    else
      var p := ins[..|ins| - 1];
      var inp := ins[|ins| - 1];
      SteadyReadings(g, p) + [Reading(inp.now, Ema(inp.deviation, Iterate(g, p).sensor.filtered))]
  }

  /** An iteration that leaves a STEADY command pending: neither met nor out
      of time. */
  predicate SteadyPending(s: Game, inp: Inputs) {
    && s.phase == WaitInput
    && 0 <= s.round.cmdIndex < |s.round.sequence|
    && s.round.sequence[s.round.cmdIndex] == Steady
    && !CommandMet(s, inp)
    && inp.now - s.round.levelStart < s.round.timeLimit
  }

  /** One more pending iteration advances the loop's timer by one step of
      the steady timer function. */
  lemma SteadyRunStep(g: Game, p: seq<Inputs>, inp: Inputs, t: Option<int>)
    requires Inv(g) && forall i :: 0 <= i < |p| ==> WellFormed(p[i])
    requires WellFormed(inp)
    requires Iterate(g, p).round == g.round.(steadyStart := t)
    requires SteadyPending(Iterate(g, p), inp)
    ensures Iterate(g, p + [inp]).phase == WaitInput
    ensures Iterate(g, p + [inp]).round
              == g.round.(steadyStart := SteadyStep(t, inp.now, Ema(inp.deviation, Iterate(g, p).sensor.filtered)).start)
  {
    var ins := p + [inp];
    assert ins[..|p|] == p;
    var s := Iterate(g, p);
    SteadyTickIsTimerStep(s, inp);
    assert Iterate(g, ins) == Next(s, inp);
  }

  /** A run of iterations each of which leaves a STEADY command pending. */
  predicate PendingRun(g: Game, ins: seq<Inputs>)
    requires Inv(g) && forall i :: 0 <= i < |ins| ==> WellFormed(ins[i])
    decreases |ins|
  {
    |ins| == 0 ||
    (PendingRun(g, ins[..|ins| - 1]) && SteadyPending(Iterate(g, ins[..|ins| - 1]), ins[|ins| - 1]))
  }

  /** The readings of a run extended by one iteration. */
  lemma ReadingsSnoc(g: Game, p: seq<Inputs>, inp: Inputs)
    requires Inv(g) && forall i :: 0 <= i < |p| ==> WellFormed(p[i])
    requires WellFormed(inp)
    ensures SteadyReadings(g, p + [inp])
              == SteadyReadings(g, p) + [Reading(inp.now, Ema(inp.deviation, Iterate(g, p).sensor.filtered))]
  {
    assert (p + [inp])[..|p|] == p;
  }

  /** Over a run of WAIT_INPUT iterations in which one STEADY command stays
      pending, starting with the timer unset, the loop's steady timer is the
      hold timer of the run's readings, and nothing else of the round moves. */
  lemma {:induction false} SteadyRunTimer(g: Game, ins: seq<Inputs>)
    requires Inv(g) && forall i :: 0 <= i < |ins| ==> WellFormed(ins[i])
    requires g.phase == WaitInput && g.round.steadyStart.None?
    requires PendingRun(g, ins)
    ensures Iterate(g, ins).phase == WaitInput
    ensures Iterate(g, ins).round == g.round.(steadyStart := SteadyTimer(SteadyReadings(g, ins)))
    decreases |ins|
  {
    if |ins| > 0 {
      var n := |ins| - 1;
      var p := ins[..n];
      var inp := ins[n];
      assert ins == p + [inp];
      assert PendingRun(g, p) && SteadyPending(Iterate(g, p), inp);
      SteadyRunTimer(g, p);
      SteadyRunStep(g, p, inp, SteadyTimer(SteadyReadings(g, p)));
      ReadingsSnoc(g, p, inp);
    }
  }

  /** The STEADY verdict of the loop: after such a run, the next iteration
      meets the command exactly when its smoothed deviation and every one
      since some iteration k of the run are below the threshold, and at least
      `SteadyHoldMs` have passed since iteration k. */
  lemma SteadyRunVerdict(g: Game, ins: seq<Inputs>, inp: Inputs)
    requires Inv(g) && forall i :: 0 <= i < |ins| ==> WellFormed(ins[i])
    requires WellFormed(inp)
    requires g.phase == WaitInput && g.round.steadyStart.None?
    requires g.round.sequence[g.round.cmdIndex] == Steady
    requires PendingRun(g, ins)
    ensures Iterate(g, ins).round == g.round.(steadyStart := SteadyTimer(SteadyReadings(g, ins)))
    ensures var h := Iterate(g, ins);
      var rs := SteadyReadings(g, ins);
      CommandMet(h, inp) <==>
        && Ema(inp.deviation, h.sensor.filtered) < SteadyThreshold
        && exists k :: HoldFrom(rs, k) && inp.now - rs[k].now >= SteadyHoldMs
  {
    SteadyRunTimer(g, ins);
    var h := Iterate(g, ins);
    var rs := SteadyReadings(g, ins);
    SteadyTickIsTimerStep(h, inp);
    SteadyVerdict(rs, Reading(inp.now, Ema(inp.deviation, h.sensor.filtered)));
  }
}
