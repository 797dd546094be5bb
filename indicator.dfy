/**
 * The "thinking" indicator of a pending reply (src/view.ts:146, 151-168): a
 * span whose text starts as three dots and, on every firing of the interval
 * timer, grows by one dot and falls back to a single dot once it would be
 * longer than three. The timer itself is not modelled; n firings are n
 * applications of Tick.
 */
module LoadingIndicator {

  /** The text the indicator starts with (src/view.ts:146). */
  const Initial := "..."

  /** The longest text the indicator keeps before falling back. */
  const MaxDots := 3

  /** One firing of the animation (src/view.ts:160-164): append a dot, and
      when the text is now longer than three, replace it by a single dot. */
  function Tick(text: string): (r: string)
    ensures 1 <= |r| <= MaxDots
    ensures r == text + "." || r == "."
  {
    var grown := text + ".";
    if |grown| > MaxDots then "." else grown
  }

  /** The indicator text after `n` firings. After the first firing it has
      one to three characters, and its last `n` characters are dots, so
      whatever the span held, three firings leave only dots. */
  function Ticks(text: string, n: nat): (r: string)
    ensures n > 0 ==> 1 <= |r| <= MaxDots
    ensures forall i :: 0 <= i < |r| && |r| - n <= i ==> r[i] == '.'
  {
    if n == 0 then text else Tick(Ticks(text, n - 1))
  }

  /** A run of `k` dots. */
  function Dots(k: nat): (r: string)
    ensures |r| == k && forall i :: 0 <= i < k ==> r[i] == '.'
  {
    seq(k, _ => '.')
  }

  /** The length of the indicator after `n` firings from the initial text:
      3, 1, 2, 3, 1, 2, ... */
  function CycleLength(n: nat): (k: nat)
    ensures 1 <= k <= MaxDots
  {
    if n % 3 == 0 then 3 else n % 3
  }

  /** Starting from `...`, the indicator is always a run of dots whose
      length cycles 3, 1, 2, 3, 1, 2, ... with one step per firing. */
  lemma {:induction false} TicksFromInitial(n: nat)
    ensures Ticks(Initial, n) == Dots(CycleLength(n))
  {
    if n == 0 {
      assert Initial == Dots(3);
    } else {
      TicksFromInitial(n - 1);
      var k := CycleLength(n - 1);
      if k < 3 {
        assert CycleLength(n) == k + 1;
        assert Dots(k) + "." == Dots(k + 1);
      } else {
        assert CycleLength(n) == 1;
        assert Dots(1) == ".";
      }
    }
  }

  /** The animation is periodic with period three. */
  lemma TicksPeriodic(n: nat)
    ensures Ticks(Initial, n + 3) == Ticks(Initial, n)
  {
    TicksFromInitial(n + 3);
    TicksFromInitial(n);
    assert CycleLength(n + 3) == CycleLength(n);
  }
}
