/** Fixed windows of time, which start and end on whole seconds. */
module TimeWindows {
  datatype Unit = Minute | Hour | Day

  function Span(unit: Unit): int {
    match unit
    case Minute => 60
    case Hour => 3_600
    case Day => 86_400
  }

  /** The start of the window that holds a second. */
  function Floor(unit: Unit, second: int): int {
    match unit
    case Minute => second - second % 60
    case Hour => second - second % 3_600
    case Day => second - second % 86_400
  }

  function Max(a: int, b: int): int {
    if a < b then b else a
  }

  /** The window of a moment is the only aligned one that holds it. */
  lemma MultipleBelow(span: int, second: int, k: int)
    requires span > 0
    ensures second - second % span == k * span <==> k * span <= second < k * span + span
  {
    var d := second / span;
    assert second == d * span + second % span;
    if d < k {
      assert (d + 1) * span <= k * span;
    } else if d > k {
      assert (k + 1) * span <= d * span;
    }
  }

  /** Each moment lies in exactly one window: of all multiples of the span only its floor starts one that holds it. */
  lemma FloorIs(unit: Unit, second: int, k: int)
    ensures Floor(unit, second) == k * Span(unit) <==> k * Span(unit) <= second < k * Span(unit) + Span(unit)
  {
    match unit
    case Minute => MultipleBelow(60, second, k);
    case Hour => MultipleBelow(3_600, second, k);
    case Day => MultipleBelow(86_400, second, k);
  }

  lemma FloorIsAligned(unit: Unit, second: int)
    ensures Floor(unit, second) % Span(unit) == 0
  {
    match unit
    case Minute => MultipleBelow(60, Floor(unit, second), second / 60);
    case Hour => MultipleBelow(3_600, Floor(unit, second), second / 3_600);
    case Day => MultipleBelow(86_400, Floor(unit, second), second / 86_400);
  }

  lemma SameWindow(unit: Unit, second: int, later: int)
    requires second <= later < Floor(unit, second) + Span(unit)
    ensures Floor(unit, later) == Floor(unit, second)
  {
    FloorIsAligned(unit, second);
    FloorIs(unit, later, Floor(unit, second) / Span(unit));
    assert Floor(unit, second) <= second;
  }
}
