/** The game engine of the bomb-diffuser game as a state machine over values:
    every module-level variable of the game loop gathered into one `Game`
    record, and one loop iteration as the function `Next` of the record and
    of what the hardware reported on that iteration. */
module Diffuser {
  import opened Options
  import opened Controls
  import opened Levels
  import opened Gesture
  import opened HighScores

  /** The seven states of the loop. */
  datatype Phase = Splash | NameInput | Menu | InitLevel | WaitInput | LevelResult | HsShow

  /** Times are integer milliseconds of `time.monotonic()`. */
  const SplashMs: int := 3000
  const SettleMs: int := 1000
  const PointPerCommand: int := 10
  const PointPerLevel: int := 50

  /** Menu rows: 0 is the player row, 1..3 the difficulties. */
  const MenuLast: nat := 3
  const FirstDifficultyRow: int := 1
  const NameLength: nat := 3
  const DefaultName: string := "AAA"

  /** What one iteration of the loop reads from the hardware: the clock, the
      encoder's `update()` flag and position, the button level (pull-up, so
      `false` while pressed), the accelerometer reading with its deviation
      from the baseline (the square root the source takes), twenty samples for
      a calibration and the random choices for a new sequence. */
  datatype Inputs = Inputs(
    now: int,
    changed: bool,
    position: int,
    button: bool,
    accel: Vec3,
    deviation: real,
    samples: seq<Vec3>,
    draws: seq<nat>)

  predicate WellFormed(inp: Inputs) {
    |inp.samples| == CalibrationSamples && ValidDraws(inp.draws)
  }

  /** The letters being entered (`player_initials`), the letter selected
      (`player_pos`), the encoder position the letter last moved from
      (`player_last_position`) and the committed name (`current_player_name`). */
  datatype Player = Player(initials: string, pos: int, lastPosition: int, name: string)

  /** The high-score table in memory and the contents of its file, `None`
      while the file does not exist. */
  datatype Store = Store(table: seq<Entry>, file: Option<string>)

  /** The level being played: difficulty and level index, time limit, the
      command sequence with its length and the index of the current command,
      the steady timer, the level clock, and the verdict shown afterwards
      (`result_is_success`, `is_last`). */
  datatype Round = Round(
    diffIndex: int,
    levelIndex: int,
    timeLimit: int,
    sequence: seq<Move>,
    required: int,
    cmdIndex: int,
    steadyStart: Option<int>,
    levelStart: int,
    success: bool,
    isLast: bool)

  /** The encoder position and button level of the previous iteration. */
  datatype Knob = Knob(lastPosition: int, lastButton: bool)

  /** The low-pass filtered deviation and the resting baseline of the
      accelerometer. */
  datatype Sensor = Sensor(filtered: real, baseline: Vec3)

  /** The module globals of the game loop, grouped by what they belong to. */
  datatype Game = Game(
    phase: Phase,
    score: int,
    splashStart: int,
    menuIndex: int,
    player: Player,
    store: Store,
    round: Round,
    knob: Knob,
    sensor: Sensor)

  /** The state when the loop is entered: the encoder and button as first
      read, the splash timer started, the table loaded from the file. */
  function Boot(now: int, position: int, button: bool, file: Option<string>): Game {
    Game(Splash, 0, now, FirstDifficultyRow,
         Player(DefaultName, 0, 0, DefaultName),
         Store(LoadTable(file), file),
         Round(0, 0, LevelTable[0].timeLimitMs, [], 0, 0, None, 0, false, false),
         Knob(position, button),
         Sensor(0.0, RestBaseline))
  }

  predicate IsName(s: string) {
    |s| == NameLength && forall i :: 0 <= i < |s| ==> IsLetter(s[i])
  }

  /** The level being played belongs to the chosen difficulty, and its
      sequence, command count and time limit are that level's. */
  predicate LevelReady(r: Round) {
    && 0 <= r.diffIndex < |Difficulties|
    && DiffStart(r.diffIndex) <= r.levelIndex <= DiffEnd(r.diffIndex)
    && r.required == |r.sequence| == LevelTable[r.levelIndex].commands
    && r.timeLimit == LevelTable[r.levelIndex].timeLimitMs
  }

  /** After a level: success means every command was met, and `isLast` says
      the level was the last of its difficulty and was won. */
  predicate ResultConsistent(r: Round) {
    && 0 <= r.diffIndex < |Difficulties|
    && (r.success ==> r.cmdIndex == r.required)
    && (!r.success ==> 0 <= r.cmdIndex < r.required)
    && r.isLast == (r.success && r.levelIndex == DiffEnd(r.diffIndex))
  }

  predicate Playing(p: Phase) {
    p == InitLevel || p == WaitInput || p == LevelResult
  }

  /** What holds of the globals at the top of every iteration. */
  predicate Inv(g: Game) {
    && IsName(g.player.initials) && IsName(g.player.name)
    && 0 <= g.player.pos < NameLength
    && 0 <= g.menuIndex <= MenuLast
    && 0 <= g.round.diffIndex < |Difficulties|
    && g.score >= 0 && g.score % PointPerCommand == 0
    && ValidTable(g.store.table)
    && (Playing(g.phase) ==> LevelReady(g.round))
    && (g.phase == InitLevel || g.phase == WaitInput ==> 0 <= g.round.cmdIndex < g.round.required)
    && (g.phase == LevelResult ==> ResultConsistent(g.round))
  }

  /** The table in memory is what loading the file would give. */
  predicate Saved(g: Game) {
    LoadTable(g.store.file) == g.store.table
  }

  /** Step 1 of the loop, the encoder. In the menu a change of position moves
      the cursor; elsewhere any reported change is remembered as the last
      position. */
  function Encoded(g: Game, inp: Inputs): (p: Game)
    ensures p == g.(menuIndex := p.menuIndex, knob := g.knob.(lastPosition := p.knob.lastPosition))
    ensures g.phase != Menu ==> p.menuIndex == g.menuIndex
    ensures 0 <= p.menuIndex <= MenuLast || p.menuIndex == g.menuIndex
  {
    if !inp.changed then g
    else if g.phase == Menu then
      if inp.position != g.knob.lastPosition then
        g.(menuIndex := StepCursor(g.menuIndex, inp.position - g.knob.lastPosition, MenuLast),
           knob := g.knob.(lastPosition := inp.position))
      else g
    else g.(knob := g.knob.(lastPosition := inp.position))
  }

  /** Steps 1 and 2 of the loop: the encoder, then the button level kept for
      the next edge. */
  function Polled(g: Game, inp: Inputs): (p: Game)
    ensures p == g.(menuIndex := p.menuIndex, knob := Knob(p.knob.lastPosition, inp.button))
    ensures g.phase != Menu ==> p.menuIndex == g.menuIndex
    ensures 0 <= p.menuIndex <= MenuLast || p.menuIndex == g.menuIndex
  {
    var e := Encoded(g, inp);
    e.(knob := e.knob.(lastButton := inp.button))
  }

  function SplashStep(g: Game, inp: Inputs): Game {
    if inp.now - g.splashStart > SplashMs then
      g.(player := g.player.(pos := 0, lastPosition := inp.position), phase := NameInput)
    else g
  }

  /** The letters after a NAME_INPUT rotation: the selected one moves one step
      toward the rotation, and the new position becomes the reference. */
  function Rotated(pl: Player, inp: Inputs): Player
    requires 0 <= pl.pos < |pl.initials|
  {
    if inp.changed then
      var delta := inp.position - pl.lastPosition;
      var names := if delta != 0 then pl.initials[pl.pos := LetterStep(pl.initials[pl.pos], delta)]
                   else pl.initials;
      pl.(initials := names, lastPosition := inp.position)
    else pl
  }

  function NameStep(g: Game, inp: Inputs, pressed: bool): Game
    requires 0 <= g.player.pos < |g.player.initials|
  {
    var pl := Rotated(g.player, inp);
    if !pressed then g.(player := pl)
    else if pl.pos < NameLength - 1 then g.(player := pl.(pos := pl.pos + 1))
    else g.(player := pl.(name := pl.initials), menuIndex := FirstDifficultyRow, phase := Menu)
  }

  /** Level `li` of the current difficulty set up: its configuration, a fresh
      sequence, the level clock and a cleared steady timer. */
  function Prepared(r: Round, li: nat, inp: Inputs): Round
    requires li < |LevelTable| && WellFormed(inp)
  {
    var cfg := LevelTable[li];
    r.(levelIndex := li, timeLimit := cfg.timeLimitMs,
       sequence := Drawn(cfg.commands, inp.draws), required := cfg.commands,
       cmdIndex := 0, levelStart := inp.now, steadyStart := None)
  }

  /** Starts level `li`: the round prepared, a calibration, INIT_LEVEL. */
  function StartLevel(g: Game, li: nat, inp: Inputs): Game
    requires li < |LevelTable| && WellFormed(inp)
  {
    g.(round := Prepared(g.round, li, inp), sensor := g.sensor.(baseline := Mean(inp.samples)),
       phase := InitLevel)
  }

  function MenuStep(g: Game, inp: Inputs, pressed: bool): Game
    requires 0 <= g.menuIndex <= MenuLast && WellFormed(inp)
  {
    if pressed && g.menuIndex >= FirstDifficultyRow then
      var d := g.menuIndex - 1;
      StartLevel(g.(round := g.round.(diffIndex := d)), DiffStart(d), inp)
    else g
  }

  function InitStep(g: Game, inp: Inputs): Game {
    if inp.now - g.round.levelStart > SettleMs then
      g.(round := g.round.(levelStart := inp.now, steadyStart := None), phase := WaitInput)
    else g
  }

  /** The filtered deviation after this tick: only STEADY and SHAKE read the
      accelerometer. */
  function Filtered(g: Game, inp: Inputs, cmd: Move): real {
    if cmd == Steady || cmd == Shake then Ema(inp.deviation, g.sensor.filtered) else g.sensor.filtered
  }

  /** The steady timer and verdict of this tick: only a STEADY command runs
      the timer. */
  function SteadyAfter(g: Game, inp: Inputs, cmd: Move): SteadyResult {
    if cmd == Steady then SteadyStep(g.round.steadyStart, inp.now, Filtered(g, inp, cmd))
    else SteadyResult(false, g.round.steadyStart)
  }

  /** The sensing part of a WAIT_INPUT tick: the filter and the steady timer. */
  function Sensed(g: Game, inp: Inputs): Game
    requires 0 <= g.round.cmdIndex < |g.round.sequence|
  {
    var cmd := g.round.sequence[g.round.cmdIndex];
    g.(sensor := g.sensor.(filtered := Filtered(g, inp, cmd)),
       round := g.round.(steadyStart := SteadyAfter(g, inp, cmd).start))
  }

  /** Whether the current command succeeds on this tick. */
  predicate Succeeds(g: Game, inp: Inputs, pressed: bool, dial: bool)
    requires 0 <= g.round.cmdIndex < |g.round.sequence|
  {
    var cmd := g.round.sequence[g.round.cmdIndex];
    match cmd
    case CutWire => pressed
    case Dial => dial
    case Steady => SteadyAfter(g, inp, cmd).success
    case Shake => ShakeDetected(Filtered(g, inp, cmd))
  }

  /** The round after a met command: the next command, the steady timer
      cleared; after the last command the verdict of a won level. */
  function Advanced(r: Round): Round
    requires 0 <= r.diffIndex < |Difficulties|
  {
    var r2 := r.(cmdIndex := r.cmdIndex + 1, steadyStart := None);
    if r2.cmdIndex >= r2.required then
      r2.(success := true, isLast := r2.levelIndex >= DiffEnd(r2.diffIndex))
    else r2
  }

  /** A met command: its points and the next command; after the last command
      the level bonus and the result screen. */
  function Completed(g: Game): Game
    requires 0 <= g.round.diffIndex < |Difficulties|
  {
    var r := Advanced(g.round);
    if r.cmdIndex >= r.required then
      g.(score := g.score + PointPerCommand + PointPerLevel, round := r, phase := LevelResult)
    else g.(score := g.score + PointPerCommand, round := r)
  }

  function TimedOut(g: Game): Game {
    g.(round := g.round.(success := false, isLast := false), phase := LevelResult)
  }

  function WaitStep(g: Game, inp: Inputs, pressed: bool, dial: bool): Game
    requires 0 <= g.round.cmdIndex < |g.round.sequence| && 0 <= g.round.diffIndex < |Difficulties|
  {
    var remaining := g.round.timeLimit - (inp.now - g.round.levelStart);
    var s := Sensed(g, inp);
    if Succeeds(g, inp, pressed, dial) then Completed(s)
    else if remaining <= 0 then TimedOut(s)
    else s
  }

  /** The high-score update after a lost game: insert the player's entry when
      it qualifies and write the file. */
  function Recorded(g: Game): Game {
    if CheckHighscore(g.store.table, g.score) >= 0 then
      var t := Insert(g.store.table, Entry(g.player.name, g.score));
      g.(store := Store(t, Some(Serialize(t))))
    else g
  }

  function ResultStep(g: Game, inp: Inputs, pressed: bool): Game
    requires g.round.success && !g.round.isLast ==> 0 <= g.round.levelIndex && g.round.levelIndex + 1 < |LevelTable|
    requires WellFormed(inp)
  {
    if !pressed then g
    else if g.round.success && !g.round.isLast then StartLevel(g, g.round.levelIndex + 1, inp)
    else if g.round.isLast then g.(menuIndex := FirstDifficultyRow, phase := Menu)
    else Recorded(g).(phase := HsShow)
  }

  function ShowStep(g: Game, inp: Inputs, pressed: bool): Game {
    if pressed then
      g.(score := 0, player := g.player.(pos := 0, initials := DefaultName, lastPosition := inp.position),
         phase := NameInput)
    else g
  }

  /** Step 3 of the loop, the state machine, on the globals after the encoder
      and button steps. */
  function MachineStep(p: Game, inp: Inputs, pressed: bool, dial: bool): Game
    requires Inv(p) && WellFormed(inp)
  {
    match p.phase
    case Splash => SplashStep(p, inp)
    case NameInput => NameStep(p, inp, pressed)
    case Menu => MenuStep(p, inp, pressed)
    case InitLevel => InitStep(p, inp)
    case WaitInput => WaitStep(p, inp, pressed, dial)
    case LevelResult =>
      assert p.round.success && !p.round.isLast ==> p.round.levelIndex < DiffEnd(p.round.diffIndex);
      ResultStep(p, inp, pressed)
    case HsShow => ShowStep(p, inp, pressed)
  }

  /** One iteration of the loop. */
  function Next(g: Game, inp: Inputs): Game
    requires Inv(g) && WellFormed(inp)
  {
    var pressed := PressEdge(g.knob.lastButton, inp.button);
    var dial := inp.changed && g.phase != Menu;
    MachineStep(Polled(g, inp), inp, pressed, dial)
  }
}
