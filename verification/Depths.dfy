/** How deep bisecting a window goes: to its ends, to any second in it, and at most. */
module Depths {
  import opened Windows

  const MAX_SLICE_DEPTH := 48

  function Pow2(n: nat): (p: nat) {
    if n == 0 then 1 else 2 * Pow2(n - 1)
  }

  /** How many bisections bring a window of this many seconds down to one-second leaves, at most. */
  function Levels(width: int): (n: nat)
    decreases width
  {
    if width <= 1 then 0 else 1 + Levels(width - Half(width))
  }

  /** How many bring it down to its first second. */
  function FirstLevels(width: int): (n: nat)
    decreases width
  {
    if width <= 1 then 0 else 1 + FirstLevels(Half(width))
  }

  /** How many lead to the leaf of one second, given by its offset; an offset outside falls to the nearer end. */
  function PathLevels(width: int, offset: int): (n: nat)
    decreases width
  {
    if width <= 1 then 0
    else 1 + if offset < Half(width) then PathLevels(Half(width), offset)
             else PathLevels(width - Half(width), offset - Half(width))
  }

  /** The width one seam halves without saturating. */
  const LONGEST_DURATION := 2 * HALF_LONGEST_DURATION + 1

  /** The ceiling of the binary logarithm: the least n with width <= 2^n. */
  lemma {:induction false} LevelsIsLog(width: int, n: nat)
    requires width <= LONGEST_DURATION || Pow2(n) <= LONGEST_DURATION
    ensures Levels(width) <= n <==> width <= Pow2(n)
    decreases n
  {
    if n == 0 {
    } else if width <= 1 {
      LevelsIsLog(width, n - 1);
    } else {
      LevelsIsLog(width - Half(width), n - 1);
    }
  }

  /** Its floor: the largest n with 2^n <= width. */
  lemma {:induction false} FirstLevelsIsLog(width: int, n: nat)
    requires 1 <= width && (width <= LONGEST_DURATION || Pow2(n) <= LONGEST_DURATION)
    ensures n <= FirstLevels(width) <==> Pow2(n) <= width
    decreases n
  {
    if n != 0 && 1 < width {
      FirstLevelsIsLog(Half(width), n - 1);
    } else if n != 0 {
      Pow2Grows(n);
    }
  }

  lemma {:induction false} Pow2Grows(n: nat)
    requires 1 <= n
    ensures 2 <= Pow2(n)
  {
    if 1 < n {
      Pow2Grows(n - 1);
    }
  }

  lemma {:induction false} LevelsMonotone(a: int, b: int)
    requires a <= b
    ensures Levels(a) <= Levels(b)
    decreases b
  {
    if 1 < a {
      LevelsMonotone(a - Half(a), b - Half(b));
    }
  }

  /** No leaf of a window lies deeper than the levels of a window at least as wide. */
  lemma {:induction false} PathWithinLevels(width: int, offset: int, wider: int)
    requires width <= wider
    ensures PathLevels(width, offset) <= Levels(wider)
    decreases width
  {
    if 1 < width {
      var half, widerHalf := Half(width), Half(wider);
      assert half <= width - half <= wider - widerHalf;
      if offset < half {
        PathWithinLevels(half, offset, wider - widerHalf);
      } else {
        PathWithinLevels(width - half, offset - half, wider - widerHalf);
      }
    }
  }

  lemma {:induction false} PathToFirst(width: int, offset: int)
    requires offset <= 0
    ensures PathLevels(width, offset) == FirstLevels(width)
    decreases width
  {
    if 1 < width {
      PathToFirst(Half(width), offset);
    }
  }

  lemma {:induction false} PathToLast(width: int, offset: int)
    requires width - 1 <= offset
    ensures PathLevels(width, offset) == Levels(width)
    decreases width
  {
    if 1 < width {
      PathToLast(width - Half(width), offset - Half(width));
    }
  }

  /** No width that one seam can halve without saturating, 292 years, takes more than 34 levels. */
  lemma LevelsStayBelowBackstop(width: int)
    requires width <= LONGEST_DURATION
    ensures Levels(width) <= 34 < MAX_SLICE_DEPTH
  {
    hide Pow2;
    SomePowers();
    LevelsIsLog(width, 34);
  }

  lemma SomePowers()
    ensures Pow2(16) == 0x1_0000 && Pow2(18) == 0x4_0000 && Pow2(29) == 0x2000_0000 && Pow2(30) == 0x4000_0000
    ensures Pow2(32) == 0x1_0000_0000 && Pow2(34) == 0x4_0000_0000
  {
    assert Pow2(8) == 0x100;
    assert Pow2(16) == 0x1_0000;
    assert Pow2(24) == 0x100_0000;
    assert Pow2(29) == 0x2000_0000;
    assert Pow2(32) == 0x1_0000_0000;
  }
}
