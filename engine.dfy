/** The game loop as the source runs it: one object owning the globals, whose
    `Tick` performs one iteration of `while True` by updating them in place.
    Each step is proved to compute exactly the state machine `Next`. */
module GameEngine {
  import opened Options
  import opened Controls
  import opened Levels
  import opened Gesture
  import opened HighScores
  import opened Diffuser
  import opened GameRules

  class Engine {
    var phase: Phase
    var score: int
    var splashStart: int
    var menuIndex: int
    var player: Player
    var store: Store
    var round: Round
    var knob: Knob
    var sensor: Sensor

    /** The globals as one value. */
    function Snapshot(): Game
      reads this
    {
      Game(phase, score, splashStart, menuIndex, player, store, round, knob, sensor)
    }

    ghost predicate Valid()
      reads this
    {
      Inv(Snapshot()) && Saved(Snapshot())
    }

    /** Start-up: the encoder and button read once, the splash clock started
        and the high-score file loaded. */
    constructor (now: int, position: int, button: bool, file: Option<string>)
      ensures Snapshot() == Boot(now, position, button, file)
      ensures Valid()
    {
      var t := LoadHighscores(file);
      phase := Splash;
      score := 0;
      splashStart := now;
      menuIndex := FirstDifficultyRow;
      player := Player(DefaultName, 0, 0, DefaultName);
      store := Store(t, file);
      round := Round(0, 0, LevelTable[0].timeLimitMs, [], 0, 0, None, 0, false, false);
      knob := Knob(position, button);
      sensor := Sensor(0.0, RestBaseline);
      new;
      assert Snapshot() == Boot(now, position, button, file);
      BootInv(now, position, button, file);
    }

    /** One iteration of the loop. The accelerometer deviation is the length
        of the reading minus the current baseline. */
    method Tick(inp: Inputs)
      requires Valid() && WellFormed(inp)
      requires IsDeviation(inp.deviation, inp.accel, sensor.baseline)
      modifies this
      ensures Valid() && Snapshot() == Next(old(Snapshot()), inp)
    {
      ghost var g := Snapshot();
      NextPreservesInv(g, inp);
      NextKeepsSaved(g, inp);
      var dialChanged := ReadEncoder(inp);
      var pressed := ReadButton(inp);
      assert Snapshot() == Polled(g, inp);
      Dispatch(inp, pressed, dialChanged);
    }

    /** Step 3: the state machine. */
    method Dispatch(inp: Inputs, pressed: bool, dial: bool)
      requires Inv(Snapshot()) && WellFormed(inp)
      modifies this
      ensures Snapshot() == MachineStep(old(Snapshot()), inp, pressed, dial)
    {
      match phase {
        case Splash => SplashTick(inp);
        case NameInput => NameInputTick(inp, pressed);
        case Menu => MenuTick(inp, pressed);
        case InitLevel => InitLevelTick(inp);
        case WaitInput => WaitInputTick(inp, pressed, dial);
        case LevelResult =>
          assert round.success && !round.isLast ==> round.levelIndex < DiffEnd(round.diffIndex);
          LevelResultTick(inp, pressed);
        case HsShow => HsShowTick(inp, pressed);
      }
    }

    /** Step 1: in the menu a change of position moves the cursor one row and
        clamps it to 0..3; elsewhere a reported change is a DIAL event. */
    method ReadEncoder(inp: Inputs) returns (dialChanged: bool)
      modifies this
      ensures dialChanged == (inp.changed && old(phase) != Menu)
      ensures Snapshot() == Encoded(old(Snapshot()), inp)
    {
      dialChanged := false;
      if inp.changed {
        if phase == Menu {
          if inp.position != knob.lastPosition {
            var delta := inp.position - knob.lastPosition;
            if delta > 0 {
              menuIndex := menuIndex + 1;
            } else if delta < 0 {
              menuIndex := menuIndex - 1;
            }
            if menuIndex < 0 {
              menuIndex := 0;
            }
            if menuIndex > MenuLast {
              menuIndex := MenuLast;
            }
            knob := knob.(lastPosition := inp.position);
          }
        } else {
          dialChanged := true;
          knob := knob.(lastPosition := inp.position);
        }
      }
    }

    /** Step 2: a press is a fall of the level from released to pressed. */
    method ReadButton(inp: Inputs) returns (pressed: bool)
      modifies this
      ensures pressed == PressEdge(old(knob.lastButton), inp.button)
      ensures Snapshot() == old(Snapshot()).(knob := old(knob).(lastButton := inp.button))
    {
      pressed := knob.lastButton && !inp.button;
      knob := knob.(lastButton := inp.button);
    }

    method SplashTick(inp: Inputs)
      modifies this
      ensures Snapshot() == SplashStep(old(Snapshot()), inp)
    {
      if inp.now - splashStart > SplashMs {
        player := player.(pos := 0, lastPosition := inp.position);
        phase := NameInput;
      }
    }

    method NameInputTick(inp: Inputs, pressed: bool)
      requires 0 <= player.pos < |player.initials|
      modifies this
      ensures Snapshot() == NameStep(old(Snapshot()), inp, pressed)
    {
      if inp.changed {
        var delta := inp.position - player.lastPosition;
        if delta != 0 {
          var code := player.initials[player.pos] as int - 'A' as int;
          if delta > 0 {
            code := code + 1;
          } else if delta < 0 {
            code := code - 1;
          }
          code := code % 26;
          player := player.(initials := player.initials[player.pos := ('A' as int + code) as char]);
        }
        player := player.(lastPosition := inp.position);
      }
      if pressed {
        if player.pos < NameLength - 1 {
          player := player.(pos := player.pos + 1);
        } else {
          player := player.(name := player.initials);
          menuIndex := FirstDifficultyRow;
          phase := Menu;
        }
      }
    }

    /** The shared start of a level: configuration, sequence, calibration,
        clock and steady timer. */
    method BeginLevel(li: nat, inp: Inputs)
      requires li < |LevelTable| && WellFormed(inp)
      modifies this
      ensures Snapshot() == StartLevel(old(Snapshot()), li, inp)
    {
      DifficultyRanges(0, 0);
      var cfg := LevelTable[li];
      var s := GenerateSequence(cfg, inp.draws);
      round := round.(levelIndex := li, timeLimit := cfg.timeLimitMs, sequence := s,
                      required := |s|, cmdIndex := 0);
      var b := CalibrateBaseline(inp.samples);
      sensor := sensor.(baseline := b);
      round := round.(levelStart := inp.now, steadyStart := None);
      phase := InitLevel;
    }

    method MenuTick(inp: Inputs, pressed: bool)
      requires 0 <= menuIndex <= MenuLast && WellFormed(inp)
      modifies this
      ensures Snapshot() == MenuStep(old(Snapshot()), inp, pressed)
    {
      if pressed && menuIndex >= FirstDifficultyRow {
        var d := menuIndex - 1;
        round := round.(diffIndex := d);
        BeginLevel(DiffStart(d), inp);
      }
    }

    method InitLevelTick(inp: Inputs)
      modifies this
      ensures Snapshot() == InitStep(old(Snapshot()), inp)
    {
      if inp.now - round.levelStart > SettleMs {
        round := round.(levelStart := inp.now, steadyStart := None);
        phase := WaitInput;
      }
    }

    /** `accel_diff_mag_filtered`: the raw deviation through the one-pole
        low-pass filter, kept for the next reading. */
    method FilterDeviation(raw: real) returns (f: real)
      modifies this
      ensures f == Ema(raw, old(sensor.filtered))
      ensures Snapshot() == old(Snapshot()).(sensor := old(sensor).(filtered := f))
    {
      f := FilterAlpha * raw + (1.0 - FilterAlpha) * sensor.filtered;
      sensor := sensor.(filtered := f);
    }

    /** Reads the sensor a STEADY or SHAKE command needs, runs the steady
        timer and says whether the current command is met. */
    method SenseCommand(inp: Inputs, pressed: bool, dial: bool) returns (success: bool)
      requires 0 <= round.cmdIndex < |round.sequence|
      modifies this
      ensures success == Succeeds(old(Snapshot()), inp, pressed, dial)
      ensures Snapshot() == Sensed(old(Snapshot()), inp)
    {
      var cmd := round.sequence[round.cmdIndex];
      success := false;
      match cmd {
        case CutWire =>
          if pressed {
            success := true;
          }
        case Dial =>
          if dial {
            success := true;
          }
        case Steady =>
          var diff := FilterDeviation(inp.deviation);
          if diff < SteadyThreshold {
            if round.steadyStart.None? {
              round := round.(steadyStart := Some(inp.now));
            }
            if inp.now - round.steadyStart.value >= SteadyHoldMs {
              success := true;
            }
          } else {
            round := round.(steadyStart := None);
          }
        case Shake =>
          var diff := FilterDeviation(inp.deviation);
          if diff > ShakeThreshold {
            success := true;
          }
      }
    }

    /** A met command: points, the next command, and at the end of the
        sequence the level bonus and the result screen. */
    method CompleteCommand()
      requires 0 <= round.diffIndex < |Difficulties|
      modifies this
      ensures Snapshot() == Completed(old(Snapshot()))
    {
      score := score + PointPerCommand;
      round := round.(cmdIndex := round.cmdIndex + 1, steadyStart := None);
      if round.cmdIndex >= round.required {
        score := score + PointPerLevel;
        round := round.(success := true, isLast := round.levelIndex >= DiffEnd(round.diffIndex));
        phase := LevelResult;
      }
    }

    method WaitInputTick(inp: Inputs, pressed: bool, dial: bool)
      requires 0 <= round.cmdIndex < |round.sequence| && 0 <= round.diffIndex < |Difficulties|
      modifies this
      ensures Snapshot() == WaitStep(old(Snapshot()), inp, pressed, dial)
    {
      var remaining := round.timeLimit - (inp.now - round.levelStart);
      var success := SenseCommand(inp, pressed, dial);
      if success {
        CompleteCommand();
      } else if remaining <= 0 {
        round := round.(success := false, isLast := false);
        phase := LevelResult;
      }
    }

    /** The high-score update of a lost game: the check, then append, sort,
        cut to three and write the file. */
    method RecordScore()
      modifies this
      ensures Snapshot() == Recorded(old(Snapshot()))
    {
      var idx := CheckHighscoreIndex(store.table, score);
      if idx >= 0 {
        var table := store.table + [Entry(player.name, score)];
        table := SortDesc(table);
        table := Take(table, MaxHiscores);
        var content := SaveHighscores(table);
        store := Store(table, Some(content));
      }
    }

    method LevelResultTick(inp: Inputs, pressed: bool)
      requires round.success && !round.isLast ==> 0 <= round.levelIndex && round.levelIndex + 1 < |LevelTable|
      requires WellFormed(inp)
      modifies this
      ensures Snapshot() == ResultStep(old(Snapshot()), inp, pressed)
    {
      if pressed {
        if round.success && !round.isLast {
          BeginLevel(round.levelIndex + 1, inp);
        } else if round.isLast {
          menuIndex := FirstDifficultyRow;
          phase := Menu;
        } else {
          RecordScore();
          phase := HsShow;
        }
      }
    }

    method HsShowTick(inp: Inputs, pressed: bool)
      modifies this
      ensures Snapshot() == ShowStep(old(Snapshot()), inp, pressed)
    {
      if pressed {
        score := 0;
        player := player.(pos := 0, initials := DefaultName, lastPosition := inp.position);
        phase := NameInput;
      }
    }
  }
}
