/** The rolling limits that cap managers, withdrawals and redemptions: one window of slots at a time. */
module RollingLimit {
  import opened Arithmetic
  import opened Wrappers

  datatype LimitError = InvalidRollingLimitConfig | WindowOverflow | RollingLimitExceeded

  datatype Window = Window(start: U64, amount: U64)

  /** Charges an amount to the window, opening a new one when the current one is over or unused. */
  function Consume(w: Window, amount: U64, slot: U64, limit: U64, windowSlots: U64): Result<Window, LimitError>
  {
    if limit == 0 then Ok(w)
    else if windowSlots == 0 then Err(InvalidRollingLimitConfig)
    else if w.start + windowSlots > MAX_U64 then Err(WindowOverflow)
    else
      var opensNew := (w.start == 0 && w.amount == 0) || slot >= w.start + windowSlots;
      var current := if opensNew then Window(slot, 0) else w;
      if current.amount + amount > MAX_U64 then Err(WindowOverflow)
      else if current.amount + amount > limit then Err(RollingLimitExceeded)
      else Ok(current.(amount := current.amount + amount))
  }

  /** The same charge on a bucket that lives in an account; a refused charge leaves it as it was. */
  class Bucket {
    var windowStartSlot: U64
    var windowAmount: U64

    constructor ()
      ensures windowStartSlot == 0 && windowAmount == 0
    {
      windowStartSlot, windowAmount := 0, 0;
    }

    method ConsumeRollingLimit(amount: U64, currentSlot: U64, limit: U64, windowSlots: U64) returns (r: Result<(), LimitError>)
      modifies this
      ensures match Consume(Window(old(windowStartSlot), old(windowAmount)), amount, currentSlot, limit, windowSlots)
              case Err(e) => r == Err(e) && windowStartSlot == old(windowStartSlot) && windowAmount == old(windowAmount)
              case Ok(w) => r == Ok(()) && w == Window(windowStartSlot, windowAmount)
    {
      if limit == 0 {
        return Ok(());
      }
      if !(windowSlots > 0) {
        return Err(InvalidRollingLimitConfig);
      }
      if windowStartSlot + windowSlots > MAX_U64 {
        return Err(WindowOverflow);
      }
      var windowEnd := windowStartSlot + windowSlots;
      var start, used := windowStartSlot, windowAmount;
      var windowUninitialized := start == 0 && used == 0;
      if windowUninitialized || currentSlot >= windowEnd {
        start, used := currentSlot, 0;
      }
      if used + amount > MAX_U64 {
        return Err(WindowOverflow);
      }
      if !(used + amount <= limit) {
        return Err(RollingLimitExceeded);
      }
      windowStartSlot, windowAmount := start, used + amount;
      return Ok(());
    }
  }

  // ---- Runs ----

  datatype Charge = Charge(slot: U64, amount: U64)

  /** The charges that were accepted. */
  function Accepted(w: Window, charges: seq<Charge>, limit: U64, windowSlots: U64): seq<Charge>
    decreases |charges|
  {
    if charges == [] then []
    else
      var c := charges[0];
      match Consume(w, c.amount, c.slot, limit, windowSlots)
      case Err(_) => Accepted(w, charges[1..], limit, windowSlots)
      case Ok(next) => [c] + Accepted(next, charges[1..], limit, windowSlots)
  }

  /** A limit of zero is no limit: every charge goes through and no window is kept. */
  lemma {:induction false} NoLimit(w: Window, charges: seq<Charge>, windowSlots: U64)
    ensures forall amount: U64, slot: U64 :: Consume(w, amount, slot, 0, windowSlots) == Ok(w)
    ensures Accepted(w, charges, 0, windowSlots) == charges
    decreases |charges|
  {
    if charges != [] {
      NoLimit(w, charges[1..], windowSlots);
      assert charges == [charges[0]] + charges[1..];
    }
  }

  /** The window cannot be used: it has no length, or its end lies beyond the last slot. */
  predicate Blocked(w: Window, limit: U64, windowSlots: U64)
  {
    limit > 0 && (windowSlots == 0 || w.start + windowSlots > MAX_U64)
  }

  /** What is used up at a slot: nothing if the window is unused or over. */
  function UsedAt(w: Window, slot: U64, windowSlots: U64): U64
  {
    if w == Window(0, 0) || w.start + windowSlots <= slot then 0 else w.amount
  }

  /** With a limit, a charge is accepted exactly if the window can be used and what is used up leaves room. */
  lemma ChargeAcceptedIff(w: Window, amount: U64, slot: U64, limit: U64, windowSlots: U64)
    requires limit > 0
    ensures Consume(w, amount, slot, limit, windowSlots).Ok?
       <==> !Blocked(w, limit, windowSlots) && UsedAt(w, slot, windowSlots) + amount <= limit
    ensures Consume(w, amount, slot, limit, windowSlots).Ok? ==>
              var next := Consume(w, amount, slot, limit, windowSlots).value;
              && next.amount == UsedAt(w, slot, windowSlots) + amount
              && next.start == (if w == Window(0, 0) || w.start + windowSlots <= slot then slot else w.start)
  {
  }

  /** No charge at all is accepted exactly if the window cannot be used. */
  lemma BlockedIff(w: Window, limit: U64, windowSlots: U64)
    ensures Blocked(w, limit, windowSlots)
       <==> forall amount: U64, slot: U64 :: Consume(w, amount, slot, limit, windowSlots).Err?
  {
    if !Blocked(w, limit, windowSlots) && limit > 0 {
      assert Consume(w, 0, w.start + windowSlots, limit, windowSlots).Ok?;
    } else if limit == 0 {
      assert Consume(w, 0, 0, limit, windowSlots).Ok?;
    }
  }

  /** A window that cannot be used never can be: nothing is accepted in any run after it. */
  lemma {:induction false} BlockedForever(w: Window, charges: seq<Charge>, limit: U64, windowSlots: U64)
    requires Blocked(w, limit, windowSlots)
    ensures Accepted(w, charges, limit, windowSlots) == []
    decreases |charges|
  {
    if charges != [] {
      BlockedForever(w, charges[1..], limit, windowSlots);
    }
  }

  ghost predicate InSlotOrder(charges: seq<Charge>)
  {
    forall i, j :: 0 <= i < j < |charges| ==> charges[i].slot <= charges[j].slot
  }

  /** What was charged in slots `from` (inclusive) to `to` (exclusive). */
  function Spent(charges: seq<Charge>, from: int, to: int): nat
  {
    if charges == [] then 0
    else
      var last := charges[|charges| - 1];
      Spent(charges[..|charges| - 1], from, to) + if from <= last.slot < to then last.amount else 0
  }

  lemma SpentSnoc(charges: seq<Charge>, c: Charge, from: int, to: int)
    ensures Spent(charges + [c], from, to) == Spent(charges, from, to) + if from <= c.slot < to then c.amount else 0
  {
    assert (charges + [c])[..|charges|] == charges;
  }

  lemma {:induction false} SpentSplit(charges: seq<Charge>, from: int, mid: int, to: int)
    requires from <= mid <= to
    ensures Spent(charges, from, to) == Spent(charges, from, mid) + Spent(charges, mid, to)
  {
    if charges != [] {
      SpentSplit(charges[..|charges| - 1], from, mid, to);
    }
  }

  lemma {:induction false} SpentMonotone(charges: seq<Charge>, from: int, to: int, lo: int, hi: int)
    requires lo <= from && to <= hi
    ensures Spent(charges, from, to) <= Spent(charges, lo, hi)
  {
    if charges != [] {
      SpentMonotone(charges[..|charges| - 1], from, to, lo, hi);
    }
  }

  lemma {:induction false} SpentNothing(charges: seq<Charge>, from: int, to: int)
    requires forall i :: 0 <= i < |charges| ==> !(from <= charges[i].slot < to)
    ensures Spent(charges, from, to) == 0
  {
    if charges != [] {
      SpentNothing(charges[..|charges| - 1], from, to);
    }
  }

  /** What was charged in the `windowSlots` slots from `from` on. */
  function SpanSpent(charges: seq<Charge>, from: int, windowSlots: nat): nat
  {
    Spent(charges, from, from + windowSlots)
  }

  const END := MAX_U64 + 1

  /**
   What holds between charges, when every replaced window had at least `opening` spent in its first
   slot: the window's amount is what was spent since it opened and within the limit; spans reaching
   back less than a window behind its start saw at most `limit - opening` before it; and no span of
   one window's length saw more than twice the limit less the opening.
   */
  ghost predicate Bounded(w: Window, done: seq<Charge>, limit: U64, windowSlots: U64, opening: nat)
  {
    && opening <= limit
    && Spent(done, w.start, END) == w.amount <= limit
    && (forall i :: 0 <= i < |done| ==> done[i].slot < w.start + windowSlots)
    && (forall from: int :: w.start - windowSlots < from <= w.start ==> Spent(done, from, w.start) <= limit - opening)
    && (forall from: int :: SpanSpent(done, from, windowSlots) <= 2 * limit - opening)
  }

  /** The current window had `opening` spent in its first slot, or cannot be replaced before it has, or need not. */
  predicate Opening(w: Window, done: seq<Charge>, windowSlots: U64, opening: nat)
  {
    || windowSlots == 1
    || Spent(done, w.start, w.start + 1) >= opening
    || (w.start == 0 && w.amount == 0)
    || (w.start > 0 && windowSlots == MAX_U64)
  }

  /** A charge that can open a window with `opening` spent. */
  predicate CanOpen(c: Charge, windowSlots: U64, opening: nat)
  {
    c.amount >= opening || windowSlots == 1 || (windowSlots == MAX_U64 && opening == 1)
  }

  /** A charge that is accepted into the current window keeps the bounds. */
  lemma SameWindow(w: Window, done: seq<Charge>, c: Charge, limit: U64, windowSlots: U64, opening: nat)
    requires windowSlots > 0 && Bounded(w, done, limit, windowSlots, opening)
    requires w.start <= c.slot < w.start + windowSlots && w.amount + c.amount <= limit
    ensures Bounded(w.(amount := w.amount + c.amount), done + [c], limit, windowSlots, opening)
  {
    SpentSnoc(done, c, w.start, END);
    forall from: int | w.start - windowSlots < from <= w.start
      ensures Spent(done + [c], from, w.start) <= limit - opening
    {
      SpentSnoc(done, c, from, w.start);
    }
    forall from: int ensures SpanSpent(done + [c], from, windowSlots) <= 2 * limit - opening {
      assert SpanSpent(done, from, windowSlots) <= 2 * limit - opening;
      SpentSnoc(done, c, from, from + windowSlots);
      if from <= c.slot < from + windowSlots {
        if from <= w.start {
          SpentMonotone(done, from, from + windowSlots, from, Max(END, from + windowSlots));
          SpentSplit(done, from, w.start, Max(END, from + windowSlots));
          BeyondTheEnd(done, w.start, Max(END, from + windowSlots));
        } else {
          SpentMonotone(done, from, from + windowSlots, w.start, Max(END, from + windowSlots));
          BeyondTheEnd(done, w.start, Max(END, from + windowSlots));
        }
      }
    }
  }

  lemma BeyondTheEnd(done: seq<Charge>, from: int, to: int)
    requires from <= END <= to
    ensures Spent(done, from, to) == Spent(done, from, END)
  {
    SpentSplit(done, from, END, to);
    SpentNothing(done, END, to);
  }

  /** What was spent before a window that is replaced, seen from less than a window's length behind the new one. */
  lemma SpentBehind(w: Window, done: seq<Charge>, slot: U64, from: int, limit: U64, windowSlots: U64, opening: nat)
    requires windowSlots > 0 && Bounded(w, done, limit, windowSlots, opening)
    requires Opening(w, done, windowSlots, opening) && w.start <= slot && slot - windowSlots < from <= slot
    requires slot >= w.start + windowSlots || (w.start == 0 && w.amount == 0)
    ensures Spent(done, from, slot) <= limit - opening
  {
    if w.start == 0 && w.amount == 0 {
      SpentBefore(done, from, slot);
    } else if windowSlots == 1 {
      SpentNothing(done, from, slot);
    } else {
      SpentSplit(done, w.start, w.start + 1, END);
      SpentMonotone(done, from, slot, w.start + 1, END);
    }
  }

  /** Opening a window, once the current one is over or saw nothing, keeps the bounds. */
  lemma NewWindow(w: Window, done: seq<Charge>, slot: U64, limit: U64, windowSlots: U64, opening: nat)
    requires windowSlots > 0 && Bounded(w, done, limit, windowSlots, opening)
    requires Opening(w, done, windowSlots, opening) && w.start <= slot
    requires slot >= w.start + windowSlots || (w.start == 0 && w.amount == 0)
    requires forall i :: 0 <= i < |done| ==> done[i].slot <= slot
    ensures Bounded(Window(slot, 0), done, limit, windowSlots, opening)
  {
    if slot >= w.start + windowSlots {
      SpentNothing(done, slot, END);
    } else {
      SpentMonotone(done, slot, END, w.start, END);
    }
    forall from: int | slot - windowSlots < from <= slot ensures Spent(done, from, slot) <= limit - opening {
      SpentBehind(w, done, slot, from, limit, windowSlots, opening);
    }
  }

  /** No slot is negative, so nothing is spent before slot zero. */
  lemma SpentBefore(done: seq<Charge>, from: int, to: nat)
    requires to <= END
    ensures Spent(done, from, to) <= Spent(done, 0, END)
  {
    if from < 0 {
      SpentSplit(done, from, 0, to);
      SpentNothing(done, from, 0);
    }
    SpentMonotone(done, Max(from, 0), to, 0, END);
  }

  lemma ConsumeBounded(w: Window, done: seq<Charge>, c: Charge, limit: U64, windowSlots: U64, opening: nat)
    requires limit > 0 && Bounded(w, done, limit, windowSlots, opening) && w.start <= c.slot
    requires Opening(w, done, windowSlots, opening) && CanOpen(c, windowSlots, opening)
    requires forall i :: 0 <= i < |done| ==> done[i].slot <= c.slot
    requires Consume(w, c.amount, c.slot, limit, windowSlots).Ok?
    ensures var next := Consume(w, c.amount, c.slot, limit, windowSlots).value;
            && next.start <= c.slot
            && Bounded(next, done + [c], limit, windowSlots, opening)
            && Opening(next, done + [c], windowSlots, opening)
  {
    hide Bounded;
    if (w.start == 0 && w.amount == 0) || c.slot >= w.start + windowSlots {
      NewWindow(w, done, c.slot, limit, windowSlots, opening);
      SameWindow(Window(c.slot, 0), done, c, limit, windowSlots, opening);
      SpentSnoc(done, c, c.slot, c.slot + 1);
    } else {
      SameWindow(w, done, c, limit, windowSlots, opening);
      SpentSnoc(done, c, w.start, w.start + 1);
    }
  }

  lemma {:induction false} RunBounded(w: Window, done: seq<Charge>, charges: seq<Charge>, limit: U64, windowSlots: U64,
                                      opening: nat)
    requires limit > 0 && windowSlots > 0 && InSlotOrder(charges)
    requires Bounded(w, done, limit, windowSlots, opening) && Opening(w, done, windowSlots, opening)
    requires forall i :: 0 <= i < |charges| ==> w.start <= charges[i].slot && CanOpen(charges[i], windowSlots, opening)
    requires forall i, j :: 0 <= i < |done| && 0 <= j < |charges| ==> done[i].slot <= charges[j].slot
    ensures forall from: int ::
              SpanSpent(done + Accepted(w, charges, limit, windowSlots), from, windowSlots) <= 2 * limit - opening
    decreases |charges|
  {
    hide Bounded, Spent, Consume, Opening, CanOpen;
    if charges == [] {
      assert done + [] == done;
      BoundedSpans(w, done, limit, windowSlots, opening);
    } else {
      var c := charges[0];
      var rest := charges[1..];
      var r := Consume(w, c.amount, c.slot, limit, windowSlots);
      if r.Ok? {
        ConsumeBounded(w, done, c, limit, windowSlots, opening);
        RunBounded(r.value, done + [c], rest, limit, windowSlots, opening);
        assert done + ([c] + Accepted(r.value, rest, limit, windowSlots))
            == (done + [c]) + Accepted(r.value, rest, limit, windowSlots);
      } else {
        RunBounded(w, done, rest, limit, windowSlots, opening);
      }
    }
  }

  lemma BoundedSpans(w: Window, done: seq<Charge>, limit: U64, windowSlots: U64, opening: nat)
    requires Bounded(w, done, limit, windowSlots, opening)
    ensures forall from: int :: SpanSpent(done, from, windowSlots) <= 2 * limit - opening
  {
  }

  lemma {:induction false} NoWindowNoCharge(w: Window, charges: seq<Charge>, limit: U64)
    requires limit > 0
    ensures Accepted(w, charges, limit, 0) == []
    decreases |charges|
  {
    if charges != [] {
      NoWindowNoCharge(w, charges[1..], limit);
    }
  }

  // ---- How much any span of one window's length can see ----

  predicate AllPositive(charges: seq<Charge>)
  {
    forall i :: 0 <= i < |charges| ==> charges[i].amount > 0
  }

  /** What must be spent in the first slot of a window for it to be replaced later. */
  function LeastOpening(limit: U64, windowSlots: U64, positive: bool): nat
  {
    if windowSlots == 1 then limit else if positive || windowSlots == MAX_U64 then 1 else 0
  }

  /** The most that a span of one window's length can see: once the limit, or twice, or twice less one. */
  function SharpBound(limit: U64, windowSlots: U64, positive: bool): int
  {
    if windowSlots == 0 then 0 else 2 * limit - LeastOpening(limit, windowSlots, positive)
  }

  /** Over any run of charges in slot order, from an unused bucket, wherever the span starts. */
  lemma AnySpanWithinBound(charges: seq<Charge>, limit: U64, windowSlots: U64, positive: bool, from: int)
    requires limit > 0 && InSlotOrder(charges) && (positive ==> AllPositive(charges))
    ensures SpanSpent(Accepted(Window(0, 0), charges, limit, windowSlots), from, windowSlots)
         <= SharpBound(limit, windowSlots, positive)
  {
    if windowSlots == 0 {
      NoWindowNoCharge(Window(0, 0), charges, limit);
    } else {
      RunBounded(Window(0, 0), [], charges, limit, windowSlots, LeastOpening(limit, windowSlots, positive));
      assert [] + Accepted(Window(0, 0), charges, limit, windowSlots) == Accepted(Window(0, 0), charges, limit, windowSlots);
    }
  }

  /** A charge of the whole limit is seen by the span that starts with it. */
  lemma OneCharge(limit: U64, windowSlots: U64)
    requires limit > 0 && windowSlots > 0
    ensures var charges := [Charge(0, limit)];
            && Accepted(Window(0, 0), charges, limit, windowSlots) == charges
            && SpanSpent(charges, 0, windowSlots) == limit
  {
    var charges := [Charge(0, limit)];
    assert charges[1..] == [] && Accepted(Window(0, limit), [], limit, windowSlots) == [];
    SpentSnoc([], Charge(0, limit), 0, windowSlots);
    assert [] + charges == charges;
  }

  /** A window opened with `opening`, used up in its last slot, and the next one used up in the slot after. */
  function TwoWindows(limit: U64, windowSlots: U64, start: U64, opening: U64): seq<Charge>
    requires windowSlots > 1 && start + windowSlots <= MAX_U64 && opening <= limit
  {
    [Charge(start, opening), Charge(start + windowSlots - 1, limit - opening), Charge(start + windowSlots, limit)]
  }

  /**
   The windows are epochs, not a sliding span: all of this run is accepted, and one span of a
   window's length sees everything but the opening charge.
   */
  lemma TwoWindowsAccepted(limit: U64, windowSlots: U64, start: U64, opening: U64)
    requires windowSlots > 1 && start + windowSlots <= MAX_U64 && opening <= limit && limit > 0
    requires start > 0 || opening > 0
    ensures var charges := TwoWindows(limit, windowSlots, start, opening);
            Accepted(Window(0, 0), charges, limit, windowSlots) == charges
  {
    var charges := TwoWindows(limit, windowSlots, start, opening);
    var a, b, c := charges[0], charges[1], charges[2];
    assert Consume(Window(0, 0), opening, start, limit, windowSlots) == Ok(Window(start, opening));
    assert Consume(Window(start, opening), b.amount, b.slot, limit, windowSlots) == Ok(Window(start, limit));
    assert Consume(Window(start, limit), limit, c.slot, limit, windowSlots) == Ok(Window(c.slot, limit));
    hide Consume;
    assert charges[1..] == [b, c] && [b, c][1..] == [c] && [c][1..] == [];
    assert Accepted(Window(c.slot, limit), [], limit, windowSlots) == [];
    assert Accepted(Window(start, limit), [c], limit, windowSlots) == [c];
    assert Accepted(Window(start, opening), [b, c], limit, windowSlots) == [b, c];
  }

  lemma TwoWindowsSpent(limit: U64, windowSlots: U64, start: U64, opening: U64)
    requires windowSlots > 1 && start + windowSlots <= MAX_U64 && opening <= limit
    ensures SpanSpent(TwoWindows(limit, windowSlots, start, opening), start + windowSlots - 1, windowSlots)
         == 2 * limit - opening
  {
    var charges := TwoWindows(limit, windowSlots, start, opening);
    var a, b, c := charges[0], charges[1], charges[2];
    var from, to := start + windowSlots - 1, start + 2 * windowSlots - 1;
    SpentSnoc([a, b], c, from, to);
    SpentSnoc([a], b, from, to);
    SpentSnoc([], a, from, to);
    assert [a, b] + [c] == charges && [a] + [b] == [a, b] && [] + [a] == [a];
  }

  /** Some number bounds what every span of one window's length sees. */
  ghost predicate BoundsSpans(limit: U64, windowSlots: U64, positive: bool, bound: int)
  {
    forall charges: seq<Charge>, from: int :: InSlotOrder(charges) && (positive ==> AllPositive(charges)) ==>
      SpanSpent(Accepted(Window(0, 0), charges, limit, windowSlots), from, windowSlots) <= bound
  }

  /** A run that attains the sharp bound. */
  lemma BoundAttained(limit: U64, windowSlots: U64, positive: bool) returns (charges: seq<Charge>, from: int)
    requires limit > 0
    ensures InSlotOrder(charges) && (positive ==> AllPositive(charges))
    ensures SpanSpent(Accepted(Window(0, 0), charges, limit, windowSlots), from, windowSlots)
         == SharpBound(limit, windowSlots, positive)
  {
    hide Accepted, Spent;
    if windowSlots == 0 {
      charges, from := [], 0;
      NoWindowNoCharge(Window(0, 0), charges, limit);
      SpentNothing([], 0, 0);
    } else if windowSlots == 1 || SharpBound(limit, windowSlots, positive) == limit {
      charges, from := [Charge(0, limit)], 0;
      OneCharge(limit, windowSlots);
    } else {
      var opening: U64 := LeastOpening(limit, windowSlots, positive);
      var start: U64 := 1 - opening;
      charges, from := TwoWindows(limit, windowSlots, start, opening), start + windowSlots - 1;
      TwoWindowsAccepted(limit, windowSlots, start, opening);
      TwoWindowsSpent(limit, windowSlots, start, opening);
    }
  }

  /** The sharp bound bounds every run, and no smaller number does. */
  lemma SharpBoundIsLeast(limit: U64, windowSlots: U64, positive: bool, bound: int)
    requires limit > 0
    ensures BoundsSpans(limit, windowSlots, positive, bound) <==> SharpBound(limit, windowSlots, positive) <= bound
  {
    hide SharpBound, Accepted, Spent, Consume;
    var charges, from := BoundAttained(limit, windowSlots, positive);
    if SharpBound(limit, windowSlots, positive) <= bound {
      forall charges: seq<Charge>, from: int | InSlotOrder(charges) && (positive ==> AllPositive(charges))
        ensures SpanSpent(Accepted(Window(0, 0), charges, limit, windowSlots), from, windowSlots) <= bound
      {
        AnySpanWithinBound(charges, limit, windowSlots, positive, from);
      }
    }
  }

  /**
   So the limit itself holds for every span exactly when windows are a single slot long, or so long
   that the clock ends with the second one and only one unit fits; and, where charges of nothing
   cannot occur, exactly when windows are a single slot long or the limit is one.
   */
  lemma LimitHoldsForSpansIff(limit: U64, windowSlots: U64)
    requires limit > 0
    ensures BoundsSpans(limit, windowSlots, false, limit)
       <==> windowSlots <= 1 || (windowSlots == MAX_U64 && limit == 1)
    ensures BoundsSpans(limit, windowSlots, true, limit) <==> windowSlots <= 1 || limit == 1
  {
    SharpBoundIsLeast(limit, windowSlots, false, limit);
    SharpBoundIsLeast(limit, windowSlots, true, limit);
  }
}
