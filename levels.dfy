/** The four commands, the static table of ten levels with its three
    difficulty ranges, and the generator of a level's command sequence. */
module Levels {

  /** The four physical actions a level can ask for. */
  datatype Move = Dial | CutWire | Steady | Shake

  /** The numeric code the game stores for each action (`MOVE_*`). */
  function Code(m: Move): int {
    match m
    case Dial => 0
    case CutWire => 1
    case Steady => 2
    case Shake => 3
  }

  /** The display name of a command code; codes other than the four are "UNKNOWN". */
  function CommandName(cmd: int): string {
    if cmd == 0 then "DIAL"
    else if cmd == 1 then "CUT WIRE"
    else if cmd == 2 then "STEADY"
    else if cmd == 3 then "SHAKE"
    else "UNKNOWN"
  }

  /** Exactly the four codes of the actions have a name, and different actions
      have different codes and different names. */
  lemma CommandNamesDistinct(m: Move, n: Move, cmd: int)
    ensures CommandName(cmd) != "UNKNOWN" <==> exists a: Move :: Code(a) == cmd
    ensures m != n ==> Code(m) != Code(n) && CommandName(Code(m)) != CommandName(Code(n))
  {
    if 0 <= cmd <= 3 {
      var a := if cmd == 0 then Dial else if cmd == 1 then CutWire else if cmd == 2 then Steady else Shake;
      assert Code(a) == cmd;
    }
  }

  /** One row of the level table: its number as shown, how many commands it
      asks for, and its time limit in milliseconds. */
  datatype LevelConfig = LevelConfig(levelNum: nat, commands: nat, timeLimitMs: nat)

  const LevelTable: seq<LevelConfig> := [
    LevelConfig(1, 1, 5000), LevelConfig(2, 1, 4500), LevelConfig(3, 1, 4000),
    LevelConfig(4, 2, 3200), LevelConfig(5, 2, 3000), LevelConfig(6, 2, 2800),
    LevelConfig(7, 4, 3200), LevelConfig(8, 4, 3000), LevelConfig(9, 4, 2800), LevelConfig(10, 4, 2600)
  ]

  /** Each level's row: numbered from 1, one command for levels 1-3, two for
      4-6 and four for 7-10, and a time limit of at most five seconds that never
      grows within a difficulty. */
  lemma LevelTableRows(j: int)
    requires 0 <= j < |LevelTable|
    ensures |LevelTable| == 10 && LevelTable[j].levelNum == j + 1
    ensures LevelTable[j].commands == if j <= 2 then 1 else if j <= 5 then 2 else 4
    ensures 2600 <= LevelTable[j].timeLimitMs <= 5000
    ensures j != 0 && j != 3 && j != 6 ==> LevelTable[j].timeLimitMs < LevelTable[j - 1].timeLimitMs
  {
  }

  const Difficulties: seq<string> := ["EASY", "MEDIUM", "HARD"]

  /** The most commands any level asks for. */
  const MaxCommands: nat := 4

  /** The first level index of a difficulty. */
  function DiffStart(d: nat): nat
    requires d < |Difficulties|
  {
    if d == 0 then 0 else if d == 1 then 3 else 6
  }

  /** The last level index of a difficulty. */
  function DiffEnd(d: nat): nat
    requires d < |Difficulties|
  {
    if d == 0 then 2 else if d == 1 then 5 else 9
  }

  /** The difficulty ranges split the level indices into contiguous runs in
      order: EASY 0-2, MEDIUM 3-5, HARD 6-9, each level in exactly one, and
      within a difficulty every level asks for the same number of commands
      and allows less time than the one before. */
  lemma DifficultyRanges(i: nat, d: nat)
    requires d < |Difficulties|
    ensures DiffStart(0) == 0 && DiffEnd(|Difficulties| - 1) == |LevelTable| - 1
    ensures d > 0 ==> DiffStart(d) == DiffEnd(d - 1) + 1
    ensures DiffStart(d) <= DiffEnd(d)
    ensures i < |LevelTable| ==> exists e :: 0 <= e < |Difficulties| && DiffStart(e) <= i <= DiffEnd(e)
    ensures forall e :: 0 <= e < |Difficulties| && DiffStart(d) <= i <= DiffEnd(d) && DiffStart(e) <= i <= DiffEnd(e) ==> e == d
    ensures forall j :: DiffStart(d) <= j < DiffEnd(d) ==>
              LevelTable[j + 1].commands == LevelTable[j].commands && LevelTable[j + 1].timeLimitMs < LevelTable[j].timeLimitMs
    ensures forall j :: 0 <= j < |LevelTable| ==> 1 <= LevelTable[j].commands <= MaxCommands && LevelTable[j].levelNum == j + 1
  {
    if i < |LevelTable| {
      var e := if i <= 2 then 0 else if i <= 5 then 1 else 2;
      assert DiffStart(e) <= i <= DiffEnd(e);
    }
  }

  /** The pool `random.choice` draws from, in the game's order. */
  const AllMoves: seq<Move> := [CutWire, Dial, Steady, Shake]

  lemma EveryMoveCanBeDrawn(m: Move)
    ensures exists k :: 0 <= k < |AllMoves| && AllMoves[k] == m
  {
    var k := match m case CutWire => 0 case Dial => 1 case Steady => 2 case Shake => 3;
    assert AllMoves[k] == m;
  }

  /** The pool holds each of the four moves exactly once, so a uniform choice
      of index is a uniform choice of move. */
  lemma AllMovesOnce(i: int, j: int)
    requires 0 <= i < |AllMoves| && 0 <= j < |AllMoves|
    ensures |AllMoves| == 4
    ensures AllMoves[i] == AllMoves[j] ==> i == j
  {
  }

  /** A source of random choices: a run of indices into `AllMoves`, enough for
      the longest level. */
  predicate ValidDraws(draws: seq<nat>) {
    |draws| >= MaxCommands && forall i :: 0 <= i < |draws| ==> draws[i] < |AllMoves|
  }

  /** The sequence `n` successive choices produce. */
  function Drawn(n: nat, draws: seq<nat>): (s: seq<Move>)
    requires n <= |draws| && forall i :: 0 <= i < n ==> draws[i] < |AllMoves|
  {
    seq(n, i requires 0 <= i < n => AllMoves[draws[i]])
  }

  /** `generate_sequence_for_level`: one independent choice from the pool per
      command the level asks for. */
  method GenerateSequence(cfg: LevelConfig, draws: seq<nat>) returns (s: seq<Move>)
    requires cfg.commands <= |draws| && forall i :: 0 <= i < cfg.commands ==> draws[i] < |AllMoves|
    ensures |s| == cfg.commands
    ensures forall i :: 0 <= i < |s| ==> s[i] == AllMoves[draws[i]]
    ensures s == Drawn(cfg.commands, draws)
  {
    s := [];
    var i := 0;
    while i < cfg.commands
      invariant 0 <= i <= cfg.commands
      invariant |s| == i
      invariant forall k :: 0 <= k < i ==> s[k] == AllMoves[draws[k]]
    {
      s := s + [AllMoves[draws[i]]];
      i := i + 1;
    }
  }
}
