/** The input handling both main loops share: the button press-edge detector,
    the cursor that a rotation moves by one row and that stops at either end,
    and the letter that a rotation moves by one place around A..Z. */
module Controls {

  /** The button is wired active-low: `True` while released, `False` while held.
      A press is reported on the one poll at which the level goes from released
      to held. */
  function PressEdge(last: bool, raw: bool): bool {
    last && !raw
  }

  /** A press-edge is never reported on two consecutive polls: holding the
      button down reports it once. */
  lemma PressEdgeOnce(a: bool, b: bool, c: bool)
    ensures PressEdge(a, b) ==> !PressEdge(b, c)
  {
  }

  /** The edges reported for a run of polled levels, each given the level of
      the poll before it; `last` is the level held before the run. */
  function Edges(last: bool, levels: seq<bool>): (es: seq<bool>)
    ensures |es| == |levels|
    ensures |levels| > 0 ==> es[0] == PressEdge(last, levels[0])
    ensures forall i :: 0 < i < |levels| ==> es[i] == PressEdge(levels[i - 1], levels[i])
    decreases levels
  {
    if |levels| == 0 then []
    else
      var rest := Edges(levels[0], levels[1..]);
      assert forall i :: 0 < i < |levels| ==> levels[i] == levels[1..][i - 1];
      [PressEdge(last, levels[0])] + rest
  }

  /** While the button stays held (after the first poll of the hold) no further
      press is reported. */
  lemma {:induction false} HeldButtonFiresOnce(last: bool, levels: seq<bool>, i: nat, j: nat)
    requires i < j < |levels|
    requires forall k :: i <= k <= j ==> !levels[k]
    ensures !Edges(last, levels)[j]
  {
    assert !levels[j - 1];
  }

  /** -1, 0 or 1, the direction of a rotation. */
  function Sign(d: int): (s: int)
    ensures -1 <= s <= 1 && (s > 0 <==> d > 0) && (s < 0 <==> d < 0)
  {
    if d > 0 then 1 else if d < 0 then -1 else 0
  }

  /** The cursor after a rotation by `delta`: one row in the direction of the
      rotation, whatever its size, then clamped to the rows 0..hi. */
  function StepCursor(sel: int, delta: int, hi: nat): (r: int)
    ensures 0 <= r <= hi
    ensures 0 <= sel <= hi && delta > 0 ==> r == (if sel < hi then sel + 1 else hi)
    ensures 0 <= sel <= hi && delta < 0 ==> r == (if sel > 0 then sel - 1 else 0)
    ensures 0 <= sel <= hi && delta == 0 ==> r == sel
  {
    var moved := sel + Sign(delta);
    if moved < 0 then 0 else if moved > hi then hi else moved
  }

  predicate IsLetter(c: char) {
    'A' <= c <= 'Z'
  }

  /** The place of a letter in the alphabet, 0 for A. */
  function LetterIndex(c: char): int {
    c as int - 'A' as int
  }

  /** The letter at a place in the alphabet. */
  function LetterAt(k: int): (c: char)
    requires 0 <= k < 26
    ensures IsLetter(c) && LetterIndex(c) == k
  {
    ('A' as int + k) as char
  }

  /** The letter after a rotation by `delta`: one place forward or back in the
      alphabet, modulo 26; a rotation of 0 leaves the letter alone. */
  function LetterStep(c: char, delta: int): (r: char)
    ensures delta == 0 ==> r == c
    ensures delta != 0 ==> IsLetter(r)
    ensures IsLetter(c) ==> IsLetter(r)
    ensures delta != 0 ==> LetterIndex(r) == (LetterIndex(c) + Sign(delta)) % 26
  {
    if delta == 0 then c else LetterAt((LetterIndex(c) + Sign(delta)) % 26)
  }

  /** Forward from Z wraps to A, back from A wraps to Z, and otherwise a
      letter moves to its neighbour. */
  lemma LetterStepWraps(c: char, delta: int)
    requires IsLetter(c) && delta != 0
    ensures delta > 0 ==> LetterStep(c, delta) == (if c == 'Z' then 'A' else (c as int + 1) as char)
    ensures delta < 0 ==> LetterStep(c, delta) == (if c == 'A' then 'Z' else (c as int - 1) as char)
  {
  }

  /** A step forward and a step back cancel out. */
  lemma LetterStepInverse(c: char)
    requires IsLetter(c)
    ensures LetterStep(LetterStep(c, 1), -1) == c
    ensures LetterStep(LetterStep(c, -1), 1) == c
  {
  }

  /** The letter after `n` forward steps. */
  function LetterForward(c: char, n: nat): char {
    if n == 0 then c else LetterStep(LetterForward(c, n - 1), 1)
  }

  /** `n` forward steps advance a letter by `n` places modulo 26, so 26 steps
      bring it back. */
  lemma {:induction false} LetterForwardIndex(c: char, n: nat)
    requires IsLetter(c)
    ensures IsLetter(LetterForward(c, n))
    ensures LetterIndex(LetterForward(c, n)) == (LetterIndex(c) + n) % 26
  {
    if n > 0 {
      LetterForwardIndex(c, n - 1);
      var prev := LetterForward(c, n - 1);
      assert LetterIndex(LetterForward(c, n)) == (LetterIndex(prev) + 1) % 26;
      ModSuccessor(LetterIndex(c) + n - 1);
    }
  }

  /** Taking the remainder before adding one does not change the remainder after. */
  lemma ModSuccessor(x: int)
    ensures (x % 26 + 1) % 26 == (x + 1) % 26
  {
    var q := x / 26;
    assert x == 26 * q + x % 26;
    if x % 26 == 25 {
      assert x + 1 == 26 * (q + 1);
    } else {
      assert x + 1 == 26 * q + (x % 26 + 1);
    }
  }

  /** A whole number of turns round the alphabet returns to the same letter. */
  lemma LetterCycle(c: char, n: nat)
    requires IsLetter(c) && n % 26 == 0
    ensures LetterForward(c, n) == c
  {
    LetterForwardIndex(c, n);
    assert LetterForward(c, n) as int == c as int;
  }
}
