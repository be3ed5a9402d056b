/** Frame selection of the playback engine: maps one elapsed-time reading and
    a model's `start`, `stop` and `step` to the index of the recorded frame to
    show. JavaScript numbers are modelled as reals; a division by zero (which
    yields NaN or an infinity, neither of which indexes an array) is `None`. */
module FrameSelect {
  import opened Wrappers

  /** JavaScript's `Math.round`: the nearest integer, halves rounded up. */
  function Round(x: real): (r: int)
    ensures r as real - 0.5 <= x < r as real + 0.5
  {
    (x + 0.5).Floor
  }

  /** Truncation toward zero, as JavaScript's `%` uses for its quotient. */
  function Trunc(x: real): (r: int)
    ensures 0.0 <= x ==> 0 <= r && r as real <= x < r as real + 1.0
    ensures x <= 0.0 ==> r <= 0 && r as real - 1.0 < x <= r as real
  {
    if x >= 0.0 then x.Floor else -((-x).Floor)
  }

  /** JavaScript's `%` on finite numbers with a non-zero divisor: the
      remainder takes the sign of the dividend. */
  function Rem(x: real, y: real): real
    requires y != 0.0
  {
    x - y * Trunc(x / y) as real
  }

  // Field facts about real division and multiplication used below.

  lemma DivMul(x: real, y: real)
    requires y != 0.0
    ensures (x / y) * y == x
  {
  }

  lemma DivUnique(x: real, y: real, q: real)
    requires y != 0.0 && q * y == x
    ensures q == x / y
  {
  }

  lemma MulLe(a: real, b: real, y: real)
    requires a <= b && 0.0 < y
    ensures a * y <= b * y
  {
  }

  lemma MulLt(a: real, b: real, y: real)
    requires a < b && 0.0 < y
    ensures a * y < b * y
  {
  }

  lemma DivLe(a: real, b: real, y: real)
    requires a <= b && 0.0 < y
    ensures a / y <= b / y
  {
  }

  lemma DivLt1(w: real, y: real)
    requires 0.0 <= w < y
    ensures 0.0 <= w / y < 1.0
  {
  }

  /** The three regions of an offset, tested in the order of the source. */
  predicate InRange(offset: real, start: real, stop: real) {
    offset >= start && offset <= stop
  }

  predicate PreRoll(offset: real, start: real, stop: real) {
    !InRange(offset, start, stop) && offset < start
  }

  predicate PostRoll(offset: real, start: real, stop: real) {
    !InRange(offset, start, stop) && !PreRoll(offset, start, stop)
  }

  /** The frame index `update` computes for a model from the clock reading
      `current`. The offset `current - start` is compared against `start`
      and `stop` themselves; before the range the index is the constant 1;
      after it the offset is wrapped by `stop` (not by `stop - start`). */
  function FrameIndex(current: real, start: real, stop: real, step: real): Option<int>
  {
    var offset := current - start;
    if InRange(offset, start, stop) then
      if step == 0.0 then None else Some(Round(offset / step))
    else if offset < start then Some(1)
    else if step == 0.0 || stop == 0.0 then None
    else Some(Round(Rem(offset, stop) / step))
  }

  /** Exactly one of the three branches applies to every offset, and the last
      one only to offsets beyond `stop`. */
  lemma BranchesExhaustive(offset: real, start: real, stop: real)
    ensures InRange(offset, start, stop) || PreRoll(offset, start, stop) || PostRoll(offset, start, stop)
    ensures !(InRange(offset, start, stop) && PreRoll(offset, start, stop))
    ensures PostRoll(offset, start, stop) ==> offset > stop && offset >= start
  {
  }

  /** The three branches assign an index to every reading; it is a usable
      number unless a division by a zero `step` (or, after the range, the
      remainder by a zero `stop`) makes it NaN or infinite. */
  lemma FrameIndexDefined(current: real, start: real, stop: real, step: real)
    ensures FrameIndex(current, start, stop, step).Some? <==>
      PreRoll(current - start, start, stop) ||
      (step != 0.0 && (stop != 0.0 || !PostRoll(current - start, start, stop)))
  {
  }

  /** Whenever `x` is `n` whole multiples of a positive `y` plus a remainder in
      `[0, y)`, `Rem` finds that remainder. */
  lemma RemUnique(x: real, y: real, n: int, w: real)
    requires 0.0 < y && 0.0 <= x
    requires x == n as real * y + w && 0.0 <= w < y
    ensures Rem(x, y) == w
  {
    DivMul(w, y);
    assert (n as real + w / y) * y == x;
    DivUnique(x, y, n as real + w / y);
    DivLt1(w, y);
    assert Trunc(x / y) == n;
  }

  /** A non-negative `x` splits into `Trunc(x/y)` whole multiples of `y` and a
      remainder in `[0, y)`. */
  lemma DivideByPositive(x: real, y: real) returns (n: int, w: real)
    requires 0.0 < y && 0.0 <= x
    ensures x == n as real * y + w && 0.0 <= w < y
  {
    n := (x / y).Floor;
    w := x - n as real * y;
    MulLe(n as real, x / y, y);
    MulLt(x / y, n as real + 1.0, y);
    DivMul(x, y);
  }

  /** In the post-roll region, with a positive `stop`, the index is the
      rounded quotient by `step` of the offset's remainder modulo `stop`. */
  lemma PostRollFrame(current: real, start: real, stop: real, step: real, n: int, w: real)
    requires 0.0 < stop && step != 0.0
    requires PostRoll(current - start, start, stop)
    requires current - start == n as real * stop + w && 0.0 <= w < stop
    ensures FrameIndex(current, start, stop, step) == Some(Round(w / step))
  {
    RemUnique(current - start, stop, n, w);
  }

  /** Adding any whole number of `stop` periods to a post-roll reading selects
      the same frame. */
  lemma PostRollPeriodic(current: real, start: real, stop: real, step: real, k: nat)
    requires 0.0 < stop && step != 0.0
    requires PostRoll(current - start, start, stop)
    ensures PostRoll(current + k as real * stop - start, start, stop)
    ensures FrameIndex(current + k as real * stop, start, stop, step) == FrameIndex(current, start, stop, step)
  {
    var n, w := DivideByPositive(current - start, stop);
    var later := current + k as real * stop;
    assert 0.0 <= k as real * stop;
    assert later - start == (n + k) as real * stop + w;
    PostRollFrame(current, start, stop, step, n, w);
    PostRollFrame(later, start, stop, step, n + k, w);
  }

  /** Inside the recorded range and with a positive `step`, a later reading
      never selects an earlier frame. */
  lemma InRangeMonotone(c1: real, c2: real, start: real, stop: real, step: real)
    requires 0.0 < step && c1 <= c2
    requires InRange(c1 - start, start, stop) && InRange(c2 - start, start, stop)
    ensures FrameIndex(c1, start, stop, step).Some? && FrameIndex(c2, start, stop, step).Some?
    ensures FrameIndex(c1, start, stop, step).value <= FrameIndex(c2, start, stop, step).value
  {
    var o1, o2 := c1 - start, c2 - start;
    DivLe(o1, o2, step);
  }

  /** Inside the recorded range, the index is the integer nearest to
      `offset / step`, halves rounded up. */
  lemma InRangeFrame(current: real, start: real, stop: real, step: real)
    requires step != 0.0 && InRange(current - start, start, stop)
    ensures FrameIndex(current, start, stop, step).Some?
    ensures var k := FrameIndex(current, start, stop, step).value;
      k as real - 0.5 <= (current - start) / step < k as real + 0.5
  {
  }

  /** For a log that starts at time 0 and covers `n` frames of `step` seconds,
      the reading `current == stop` is in range and selects index `n`, one past
      the last frame. */
  lemma EndOfRangeIndex(step: real, n: nat)
    requires 0.0 < step
    ensures FrameIndex(n as real * step, 0.0, n as real * step, step) == Some(n)
  {
    var stop := n as real * step;
    assert InRange(stop - 0.0, 0.0, stop);
    DivUnique(stop, step, n as real);
    assert Round(n as real) == n;
  }

  /** Before the range the source shows frame 1, not frame 0. */
  lemma PreRollIsFrameOne(current: real, start: real, stop: real, step: real)
    requires current - start < start
    ensures FrameIndex(current, start, stop, step) == Some(1)
  {
  }
}
