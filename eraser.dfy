/** The eraser's budget and cooldown as a value: the per-client resource that
    limits how much a client may erase before it is locked out for a while.
    The Session class keeps these three fields and its methods are specified
    by the functions here. */
module EraserGovernor {
  /** Distance, in pixels, the eraser may travel before the cooldown. */
  const BUDGET_MAX: real := 1200.0
  /** Length of the cooldown, in one-second ticks. */
  const COOLDOWN: int := 45

  /** `eraseBudget`, `cooldown`, and whether the one-second interval `cdTimer`
      is registered. */
  datatype Governor = Governor(budget: real, cooldown: int, timerOn: bool)

  /** The governor is either usable (no cooldown, some budget left) or cooling
      down (no budget, the timer running). */
  predicate Valid(g: Governor) {
    && 0 <= g.cooldown <= COOLDOWN
    && (g.cooldown > 0 ==> g.budget == 0.0)
    && (g.cooldown == 0 ==> 0.0 < g.budget <= BUDGET_MAX)
    && (g.timerOn <==> g.cooldown > 0)
  }

  /** The initial state, and the state a finished cooldown restores. */
  const Full: Governor := Governor(BUDGET_MAX, 0, false)

  /** The state `startCooldown` leaves, whatever it started from: the cooldown
      at its full length, no budget, a freshly registered interval. */
  const CoolingStart: Governor := Governor(0.0, COOLDOWN, true)

  /** An eraser move of length `dist`: the budget shrinks by `dist`; a move
      that takes it to zero or below clamps it to zero and starts the
      cooldown. The budget never becomes negative. */
  function Consume(g: Governor, dist: real): (r: Governor)
    ensures r.budget >= 0.0
    ensures g.budget - dist <= 0.0 ==> r == CoolingStart
    ensures g.budget - dist > 0.0 ==> r.budget == g.budget - dist && r.cooldown == g.cooldown
    ensures Valid(g) && g.cooldown == 0 && dist >= 0.0 ==> Valid(r)
  {
    var left := g.budget - dist;
    if left <= 0.0 then CoolingStart else g.(budget := left)
  }

  /** One run of the interval callback: the cooldown goes down by exactly one;
      the tick that reaches zero refills the budget and stops the timer. */
  function Tick(g: Governor): (r: Governor)
    requires g.timerOn
    ensures Valid(g) ==> Valid(r) && r.cooldown == g.cooldown - 1
    ensures Valid(g) ==> (r.cooldown == 0 <==> r == Full)
  {
    var left := g.cooldown - 1;
    if left <= 0 then Full else g.(cooldown := left)
  }

  /** The governor after `n` seconds: the callback runs once per second for as
      long as the interval is registered. */
  function Elapse(g: Governor, n: nat): (r: Governor)
    ensures !g.timerOn || n == 0 ==> r == g
    ensures Valid(g) ==> Valid(r)
    ensures Valid(g) ==> r.cooldown == if n >= g.cooldown then 0 else g.cooldown - n
    decreases n
  {
    if n == 0 || !g.timerOn then g else Elapse(Tick(g), n - 1)
  }

  /** During a cooldown each second takes one off the remaining time and
      leaves the budget empty; once the remaining time has passed the governor
      is full again and stays so. */
  lemma {:induction false} Countdown(g: Governor, n: nat)
    requires Valid(g) && g.cooldown > 0
    ensures n < g.cooldown ==> Elapse(g, n) == Governor(0.0, g.cooldown - n, true)
    ensures n >= g.cooldown ==> Elapse(g, n) == Full
    decreases n
  {
    if n > 0 {
      var g' := Tick(g);
      if g.cooldown == 1 {
        assert g' == Full;
        assert Elapse(g', n - 1) == Full;
      } else {
        assert g' == Governor(0.0, g.cooldown - 1, true);
        Countdown(g', n - 1);
      }
    }
  }

  /** COOLDOWN ticks after `startCooldown` the budget is back at BUDGET_MAX;
      before that the eraser stays locked. */
  lemma FullAfterCooldown()
    ensures Elapse(CoolingStart, COOLDOWN as nat) == Full
    ensures forall n: nat :: n < COOLDOWN ==> Elapse(CoolingStart, n).cooldown == COOLDOWN - n
  {
    Countdown(CoolingStart, COOLDOWN as nat);
    forall n: nat | n < COOLDOWN
      ensures Elapse(CoolingStart, n).cooldown == COOLDOWN - n
    {
      Countdown(CoolingStart, n);
    }
  }

  /** Total length of a sequence of moves. */
  function Sum(ds: seq<real>): real {
    if ds == [] then 0.0 else ds[0] + Sum(ds[1..])
  }

  lemma {:induction false} SumNonNegative(ds: seq<real>)
    requires forall i :: 0 <= i < |ds| ==> ds[i] >= 0.0
    ensures Sum(ds) >= 0.0
  {
    if ds != [] {
      SumNonNegative(ds[1..]);
    }
  }

  /** The governor after a drag that starts with the eraser tool and moves by
      the lengths `ds`: each move consumes budget until the budget runs out;
      from then on the tool is the pen (the cooldown is running) and the
      remaining moves leave the governor alone. No tick is taken to fall
      inside the drag: a drag that goes on for more than a second after the
      budget ran out ends with less than the full cooldown left. */
  function EraseDrag(g: Governor, ds: seq<real>): (r: Governor)
    ensures g.cooldown > 0 ==> r == g
    ensures Valid(g) && (forall i :: 0 <= i < |ds| ==> ds[i] >= 0.0) ==> Valid(r) && r.budget <= g.budget
    decreases |ds|
  {
    if ds == [] || g.cooldown > 0 then g else EraseDrag(Consume(g, ds[0]), ds[1..])
  }

  /** A drag whose moves total at least the remaining budget ends in a fresh
      cooldown; a shorter one leaves the budget reduced by its total length. */
  lemma {:induction false} DragOutcome(g: Governor, ds: seq<real>)
    requires Valid(g) && g.cooldown == 0
    requires forall i :: 0 <= i < |ds| ==> ds[i] >= 0.0
    ensures Sum(ds) >= g.budget ==> EraseDrag(g, ds) == CoolingStart
    ensures Sum(ds) < g.budget ==> EraseDrag(g, ds) == g.(budget := g.budget - Sum(ds))
    decreases |ds|
  {
    if ds != [] {
      SumNonNegative(ds[1..]);
      var g' := Consume(g, ds[0]);
      if g.budget - ds[0] <= 0.0 {
        assert EraseDrag(g, ds) == EraseDrag(CoolingStart, ds[1..]);
        if ds[1..] != [] {
          assert EraseDrag(CoolingStart, ds[1..]) == CoolingStart;
        }
      } else {
        DragOutcome(g', ds[1..]);
      }
    }
  }

  /** Starting full, erasing BUDGET_MAX pixels or more in one drag locks the
      eraser for the full cooldown. */
  lemma FullBudgetDragCoolsDown(ds: seq<real>)
    requires forall i :: 0 <= i < |ds| ==> ds[i] >= 0.0
    requires Sum(ds) >= BUDGET_MAX
    ensures EraseDrag(Full, ds) == CoolingStart
  {
    DragOutcome(Full, ds);
  }
}
