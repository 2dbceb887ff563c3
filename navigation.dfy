/**
 * Arrow-key movement over a choice list: one step modulo the list length,
 * repeated until a selectable entry is reached (the handler's `do … while`),
 * and the `loop` rule that stops the cursor at the ends.
 */
module Navigation {
  import opened Choices

  datatype Direction = Up | Down

  /** `isUpKey(key) ? -1 : 1` */
  function Offset(d: Direction): int {
    if d == Up then -1 else 1
  }

  /** `(next + offset + items.length) % items.length` */
  function Step(i: nat, d: Direction, n: nat): (r: nat)
    requires i < n
    ensures r < n
    ensures d == Down ==> r == if i + 1 == n then 0 else i + 1
    ensures d == Up ==> r == if i == 0 then n - 1 else i - 1
  {
    (i + Offset(d) + n) % n
  }

  /** Distance, in steps of direction `d`, from `i` to the next selectable entry. */
  function Measure(items: seq<Choice>, b: Bounds, i: nat, d: Direction): nat
    requires IsBounds(items, b) && i < |items|
  {
    var n := |items|;
    if IsSelectable(items[i]) then 0
    else if d == Down then
      (if i < b.first then b.first - i else if i < b.last then b.last - i else n - i + b.first)
    else
      (if i > b.last then i - b.last else if i > b.first then i - b.first else i + n - b.last)
  }

  lemma MeasureDecreases(items: seq<Choice>, b: Bounds, i: nat, d: Direction)
    requires IsBounds(items, b) && i < |items| && !IsSelectable(items[i])
    ensures Measure(items, b, Step(i, d, |items|), d) < Measure(items, b, i, d)
  {
  }

  /** The first selectable entry reached from `i` (inclusive) stepping in direction `d`. */
  function Seek(items: seq<Choice>, b: Bounds, i: nat, d: Direction): (r: nat)
    requires IsBounds(items, b) && i < |items|
    ensures r < |items| && IsSelectable(items[r])
    decreases Measure(items, b, i, d)
  {
    if IsSelectable(items[i]) then i
    else
      MeasureDecreases(items, b, i, d);
      Seek(items, b, Step(i, d, |items|), d)
  }

  /** Where the `do … while` loop stops: at least one step, then on to a selectable entry. */
  function NextSelectable(items: seq<Choice>, b: Bounds, active: nat, d: Direction): (r: nat)
    requires IsBounds(items, b) && active < |items|
    ensures r < |items| && IsSelectable(items[r])
  {
    Seek(items, b, Step(active, d, |items|), d)
  }

  /** The guard of the Up/Down branch: with `loop` off the cursor does not leave the ends. */
  predicate MayMove(b: Bounds, loop: bool, active: nat, d: Direction) {
    loop || (d == Up && active != b.first) || (d == Down && active != b.last)
  }

  /** The cursor after an Up or Down key. */
  function ArrowTarget(items: seq<Choice>, b: Bounds, loop: bool, active: nat, d: Direction): (r: nat)
    requires IsBounds(items, b) && active < |items|
    ensures r < |items|
    ensures IsSelectable(items[active]) ==> IsSelectable(items[r])
    ensures !MayMove(b, loop, active, d) ==> r == active
  {
    if MayMove(b, loop, active, d) then NextSelectable(items, b, active, d) else active
  }

  /** The `do … while` skip loop. */
  method NextIndex(items: seq<Choice>, b: Bounds, active: nat, d: Direction) returns (next: nat)
    requires IsBounds(items, b) && active < |items|
    ensures next == NextSelectable(items, b, active, d)
  {
    next := Step(active, d, |items|);
    while !IsSelectable(items[next])
      invariant next < |items|
      invariant Seek(items, b, next, d) == NextSelectable(items, b, active, d)
      decreases Measure(items, b, next, d)
    {
      MeasureDecreases(items, b, next, d);
      next := Step(next, d, |items|);
    }
  }

  /** Going down from at most `last`, the search stops at the nearest selectable entry without wrapping. */
  lemma {:induction false} SeekDownNoWrap(items: seq<Choice>, b: Bounds, i: nat)
    requires IsBounds(items, b) && i <= b.last
    ensures i <= Seek(items, b, i, Down) <= b.last
    ensures forall k :: i <= k < Seek(items, b, i, Down) ==> !IsSelectable(items[k])
    decreases b.last - i
  {
    if !IsSelectable(items[i]) {
      assert i < b.last;
      SeekDownNoWrap(items, b, i + 1);
    }
  }

  /** Going up from at least `first`, the search stops at the nearest selectable entry without wrapping. */
  lemma {:induction false} SeekUpNoWrap(items: seq<Choice>, b: Bounds, i: nat)
    requires IsBounds(items, b) && b.first <= i < |items|
    ensures b.first <= Seek(items, b, i, Up) <= i
    ensures forall k :: Seek(items, b, i, Up) < k <= i ==> !IsSelectable(items[k])
    decreases i - b.first
  {
    if !IsSelectable(items[i]) {
      assert i > b.first;
      SeekUpNoWrap(items, b, i - 1);
    }
  }

  /**
   * With `loop` off, an arrow key never wraps: Down moves to the next
   * selectable entry below the cursor (or stays at `last`), Up to the
   * previous one above it (or stays at `first`).
   */
  lemma NoWrapWithoutLoop(items: seq<Choice>, b: Bounds, active: nat, d: Direction)
    requires IsBounds(items, b) && active < |items| && IsSelectable(items[active])
    ensures var r := ArrowTarget(items, b, false, active, d);
      && (d == Down ==> active <= r && forall k :: active < k < r ==> !IsSelectable(items[k]))
      && (d == Up ==> r <= active && forall k :: r < k < active ==> !IsSelectable(items[k]))
      && (d == Down && active < b.last ==> active < r <= b.last && IsSelectable(items[r]))
      && (d == Up && active > b.first ==> b.first <= r < active && IsSelectable(items[r]))
      && (d == Down && active == b.last ==> r == active)
      && (d == Up && active == b.first ==> r == active)
  {
    if d == Down && active != b.last {
      assert active < b.last;
      SeekDownNoWrap(items, b, active + 1);
    } else if d == Up && active != b.first {
      assert active > b.first;
      SeekUpNoWrap(items, b, active - 1);
    }
  }

  /** With `loop` on, Down from the last selectable entry wraps to the first one. */
  lemma DownFromLastWraps(items: seq<Choice>, b: Bounds)
    requires IsBounds(items, b)
    ensures ArrowTarget(items, b, true, b.last, Down) == b.first
  {
    var n := |items|;
    if b.last + 1 < n {
      DownPastLast(items, b, b.last + 1);
    } else {
      SeekDownNoWrap(items, b, 0);
    }
  }

  lemma {:induction false} DownPastLast(items: seq<Choice>, b: Bounds, i: nat)
    requires IsBounds(items, b) && b.last < i < |items|
    ensures Seek(items, b, i, Down) == b.first
    decreases |items| - i
  {
    if i + 1 < |items| {
      DownPastLast(items, b, i + 1);
    } else {
      SeekDownNoWrap(items, b, 0);
    }
  }

  /** With `loop` on, Up from the first selectable entry wraps to the last one. */
  lemma UpFromFirstWraps(items: seq<Choice>, b: Bounds)
    requires IsBounds(items, b)
    ensures ArrowTarget(items, b, true, b.first, Up) == b.last
  {
    if b.first > 0 {
      UpBeforeFirst(items, b, b.first - 1);
    } else {
      SeekUpNoWrap(items, b, |items| - 1);
    }
  }

  lemma {:induction false} UpBeforeFirst(items: seq<Choice>, b: Bounds, i: nat)
    requires IsBounds(items, b) && i < b.first
    ensures Seek(items, b, i, Up) == b.last
    decreases i
  {
    if i > 0 {
      UpBeforeFirst(items, b, i - 1);
    } else {
      SeekUpNoWrap(items, b, |items| - 1);
    }
  }
}
