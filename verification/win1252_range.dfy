/**
 Models `Win1252Range`: the classifier that flags a codepoint as lying in the
 accented-letter block [0xC0, 0xFF] shared by Windows-1252 and ISO-8859-1.
 */
module Win1252Range {

  /** First codepoint of the legacy range (Latin capital A with grave). */
  const Win1252Start: int := 0xC0
  /** Last codepoint of the legacy range (Latin small y with diaeresis). */
  const Win1252End: int := 0xFF

  /** The range predicate `test(int)`: true exactly on the closed interval
      [Win1252Start, Win1252End]. Java's `int` argument is any integer here;
      the predicate never overflows, so no 32-bit modelling is needed.
      Equivalently, the value is a byte whose two high bits are set. */
  predicate Test(value: int)
    ensures Test(value) <==> 0 <= value < 0x100 && value / 0x40 == 3
  {
    value >= Win1252Start && value <= Win1252End
  }

  /** The literal range the constants denote, and its boundaries. */
  lemma TestBoundaries()
    ensures !Test(0xBF) && Test(0xC0) && Test(0xFF) && !Test(0x100)
    ensures Win1252End - Win1252Start + 1 == 64
  {
  }

  /** Negative values and everything above the upper bound classify false. */
  lemma TestRejectsOutside(value: int)
    requires value < 0 || value > Win1252End
    ensures !Test(value)
  {
  }

  /** The size of the intersection of [lo, hi] with the legacy range: an
      independent closed form for how many values the predicate accepts. */
  function Overlap(lo: int, hi: int): (n: nat) {
    var a := if lo < Win1252Start then Win1252Start else lo;
    var b := if hi > Win1252End then Win1252End else hi;
    if a <= b then b - a + 1 else 0
  }

  /** The number of values in [lo, hi] that pass `Test`, counted one value
      at a time the way `IntStream.rangeClosed(lo, hi).filter(test).count()`
      does. */
  function CountAccepted(lo: int, hi: int): (n: nat)
    ensures n == Overlap(lo, hi)
    decreases hi - lo
  {
    if lo > hi then 0
    else (if Test(lo) then 1 else 0) + CountAccepted(lo + 1, hi)
  }

  /** Over a window reaching ten values past either end, exactly the
      End - Start + 1 = 64 values of the range are accepted. */
  lemma WindowCount()
    ensures CountAccepted(Win1252Start - 10, Win1252End + 10) == Win1252End - Win1252Start + 1
    ensures CountAccepted(Win1252Start - 10, Win1252End + 10) == 64
  {
  }

  /** Any window that covers the whole range accepts exactly its 64 values. */
  lemma CoveringWindowCount(lo: int, hi: int)
    requires lo <= Win1252Start && Win1252End <= hi
    ensures CountAccepted(lo, hi) == 64
  {
  }
}
