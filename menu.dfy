/** The two-state menu prototype of `src/menu.py`: a difficulty cursor over
    three rows moved by the rotary encoder, a press that confirms the row, and
    a timed return from the confirmation screen to the menu. Times are integer
    milliseconds. */
module MenuPrototype {
  import opened Controls

  datatype Phase = SelectMenu | InitGame

  /** The rows EASY, MEDIUM, HARD are 0..LastRow. */
  const LastRow: nat := 2
  /** How long the confirmation screen stays before the menu comes back. */
  const InitHoldMs: int := 2000

  /** A redraw the loop asks of the display on one iteration. */
  datatype Draw = MenuList(selected: int) | Starting(selected: int)

  /** The prototype's globals. */
  datatype State = State(phase: Phase, selected: int, lastPosition: int,
                         lastButton: bool, initStart: int)

  predicate Valid(s: State) {
    0 <= s.selected <= LastRow
  }

  /** Start-up: EASY selected, the encoder and the button read once. */
  function Boot(position: int, button: bool): (s: State)
    ensures Valid(s) && s.phase == SelectMenu && s.selected == 0
  {
    State(SelectMenu, 0, position, button, 0)
  }

  /** The outcome of one iteration: the new globals and the redraws, in the
      order they happen. */
  datatype Outcome = Outcome(next: State, draws: seq<Draw>)

  /** The set-up before the loop: the boot state, and the one menu redraw
      that shows the selected row before the first iteration. */
  function Setup(position: int, button: bool): (o: Outcome)
    ensures Valid(o.next) && o.next.phase == SelectMenu
    ensures o.draws == [MenuList(o.next.selected)] && o.next.selected == 0
    ensures o.next.lastPosition == position && o.next.lastButton == button
  {
    Outcome(Boot(position, button), [MenuList(0)])
  }

  /** Step 1: a reported change to a new position moves the cursor one row
      and takes the position as the new reference, in either state; only the
      menu screen is redrawn for it. */
  function Rotated(s: State, changed: bool, position: int): Outcome {
    if changed && position != s.lastPosition then
      var t := s.(selected := StepCursor(s.selected, position - s.lastPosition, LastRow),
                  lastPosition := position);
      Outcome(t, if s.phase == SelectMenu then [MenuList(t.selected)] else [])
    else Outcome(s, [])
  }

  /** One iteration of the loop: rotation, then the button, then the states. */
  function Step(s: State, now: int, changed: bool, position: int, button: bool): Outcome {
    var r := Rotated(s, changed, position);
    var pressed := PressEdge(r.next.lastButton, button);
    var t := r.next.(lastButton := button);
    match t.phase
    case SelectMenu =>
      if pressed then Outcome(t.(initStart := now, phase := InitGame), r.draws + [Starting(t.selected)])
      else Outcome(t, r.draws)
    case InitGame =>
      if now - t.initStart > InitHoldMs then Outcome(t.(phase := SelectMenu), r.draws + [MenuList(t.selected)])
      else Outcome(t, r.draws)
  }

  /** The cursor stays on the three rows. */
  lemma StepKeepsValid(s: State, now: int, changed: bool, position: int, button: bool)
    requires Valid(s)
    ensures Valid(Step(s, now, changed, position, button).next)
  {
  }

  /** A rotation moves the cursor exactly one row toward its sign, without
      leaving the rows 0..2; the reference position is replaced only by a
      different one. Rotation is handled in both states. */
  lemma RotationMovesOneRow(s: State, now: int, changed: bool, position: int, button: bool)
    requires Valid(s)
    ensures var t := Step(s, now, changed, position, button).next;
      && (changed && position > s.lastPosition ==> t.selected == (if s.selected < LastRow then s.selected + 1 else LastRow))
      && (changed && position < s.lastPosition ==> t.selected == (if s.selected > 0 then s.selected - 1 else 0))
      && (!changed || position == s.lastPosition ==> t.selected == s.selected && t.lastPosition == s.lastPosition)
      && (changed ==> t.lastPosition == position)
  {
  }

  /** The button level is stored every iteration, whatever the state, so
      the next press edge is taken against it. */
  lemma ButtonTracked(s: State, now: int, changed: bool, position: int, button: bool)
    ensures Step(s, now, changed, position, button).next.lastButton == button
  {
  }

  /** In the menu a press confirms the selected row and starts the
      confirmation timer; without a press the state stays. */
  lemma MenuTransitions(s: State, now: int, changed: bool, position: int, button: bool)
    requires Valid(s) && s.phase == SelectMenu
    ensures var o := Step(s, now, changed, position, button);
      && (PressEdge(s.lastButton, button) ==>
            o.next.phase == InitGame && o.next.initStart == now
            && |o.draws| > 0 && o.draws[|o.draws| - 1] == Starting(o.next.selected))
      && (!PressEdge(s.lastButton, button) ==>
            o.next.phase == SelectMenu && o.next.initStart == s.initStart
            && (forall d :: d in o.draws ==> d.MenuList?))
  {
  }

  /** The confirmation screen ignores the button and returns to the menu only
      once more than two seconds have passed, keeping the chosen row; a
      rotation meanwhile moves the cursor without a redraw. */
  lemma InitGameTransitions(s: State, now: int, changed: bool, position: int, button: bool)
    requires Valid(s) && s.phase == InitGame
    ensures var o := Step(s, now, changed, position, button);
      && o.next.initStart == s.initStart
      && (now - s.initStart > InitHoldMs ==>
            o.next.phase == SelectMenu && o.draws == [MenuList(o.next.selected)])
      && (now - s.initStart <= InitHoldMs ==> o.next.phase == InitGame && o.draws == [])
      && (!changed || position == s.lastPosition ==> o.next.selected == s.selected)
  {
  }

  /** The state after the iterations of a trace of readings. */
  datatype Reading = Reading(now: int, changed: bool, position: int, button: bool)

  function Run(s: State, rs: seq<Reading>): (t: State)
    decreases |rs|
  {
    if |rs| == 0 then s
    else
      var r := rs[0];
      Run(Step(s, r.now, r.changed, r.position, r.button).next, rs[1..])
  }

  /** Every reachable state keeps the cursor on the rows. */
  lemma {:induction false} RunKeepsValid(s: State, rs: seq<Reading>)
    requires Valid(s)
    ensures Valid(Run(s, rs))
    decreases |rs|
  {
    if |rs| > 0 {
      var r := rs[0];
      StepKeepsValid(s, r.now, r.changed, r.position, r.button);
      RunKeepsValid(Step(s, r.now, r.changed, r.position, r.button).next, rs[1..]);
    }
  }

  /** Without rotation the selection survives any run of iterations: what was
      confirmed is what the menu shows again. */
  lemma {:induction false} StillDialKeepsSelection(s: State, rs: seq<Reading>)
    requires forall i :: 0 <= i < |rs| ==> !rs[i].changed
    ensures Run(s, rs).selected == s.selected
    decreases |rs|
  {
    if |rs| > 0 {
      var r := rs[0];
      var t := Step(s, r.now, r.changed, r.position, r.button).next;
      assert forall i :: 0 <= i < |rs[1..]| ==> rs[1..][i] == rs[i + 1];
      StillDialKeepsSelection(t, rs[1..]);
    }
  }

  /** The prototype's loop as the source runs it, on mutable globals. */
  class Menu {
    var phase: Phase
    var selected: int
    var lastPosition: int
    var lastButton: bool
    var initStart: int

    function Current(): State
      reads this
    {
      State(phase, selected, lastPosition, lastButton, initStart)
    }

    constructor (position: int, button: bool)
      ensures Current() == Boot(position, button)
    {
      phase := SelectMenu;
      selected := 0;
      lastPosition := position;
      lastButton := button;
      initStart := 0;
    }

    /** One iteration of `while True`; the redraws are returned. */
    method Tick(now: int, changed: bool, position: int, button: bool) returns (draws: seq<Draw>)
      modifies this
      ensures Current() == Step(old(Current()), now, changed, position, button).next
      ensures draws == Step(old(Current()), now, changed, position, button).draws
    {
      draws := Rotate(changed, position);
      var pressed := lastButton && !button;
      lastButton := button;
      if phase == SelectMenu {
        if pressed {
          draws := draws + [Starting(selected)];
          initStart := now;
          phase := InitGame;
        }
      } else if phase == InitGame {
        if now - initStart > InitHoldMs {
          phase := SelectMenu;
          draws := draws + [MenuList(selected)];
        }
      }
    }

    /** Step 1: the encoder. */
    method Rotate(changed: bool, position: int) returns (draws: seq<Draw>)
      modifies this
      ensures Current() == Rotated(old(Current()), changed, position).next
      ensures draws == Rotated(old(Current()), changed, position).draws
    {
      draws := [];
      if changed {
        if position != lastPosition {
          var delta := position - lastPosition;
          if delta > 0 {
            selected := selected + 1;
          } else if delta < 0 {
            selected := selected - 1;
          }
          if selected < 0 {
            selected := 0;
          }
          if selected > LastRow {
            selected := LastRow;
          }
          lastPosition := position;
          if phase == SelectMenu {
            draws := [MenuList(selected)];
          }
        }
      }
    }
  }
}
