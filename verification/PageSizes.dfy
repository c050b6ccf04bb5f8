/** Page-size arithmetic of the paginated fetch, and the table of page sizes learned per endpoint. */
module PageSizes {
  import opened Wrappers

  /** The largest offset the search endpoints serve. */
  const RESULT_WINDOW_LIMIT := 10000

  const FALLBACK_PAGE_SIZES: seq<nat> := [500, 200, 100, 50]

  /** Milliseconds for which a size learned from fast failures only is kept. */
  const FAST_FALLBACK_MEMORY := 300000

  predicate IsFallbackSize(size: int) {
    size in FALLBACK_PAGE_SIZES
  }

  function CeilDiv(a: int, b: nat): (q: int)
    requires 0 <= a && 0 < b
  {
    (a + b - 1) / b
  }

  function TotalPages(total: int, pageSize: int): (pages: int) {
    if total <= 0 || pageSize <= 0 then 0 else CeilDiv(total, pageSize)
  }

  /** The first size of the fallback sequence below `current`, if there is one. */
  function NextSmallerPageSize(current: int): (next: Option<nat>)
    ensures next.Some? ==> IsFallbackSize(next.value) && 50 <= next.value < current
    ensures next.Some? ==> forall s :: IsFallbackSize(s) && s < current ==> s <= next.value
    ensures next.None? <==> current <= 50
  {
    if current > 500 then Some(500)
    else if current > 200 then Some(200)
    else if current > 100 then Some(100)
    else if current > 50 then Some(50)
    else None
  }

  function PageLimitAt(limit: int, requestedSize: int, pageSize: int): (pages: int)
    requires 0 < requestedSize && 0 < pageSize
  {
    if limit <= 0 || pageSize >= requestedSize then limit
    else
      var ceiling := limit * requestedSize;
      assert 0 <= ceiling by { MulNonNegative(limit, requestedSize); }
      var pages := CeilDiv(ceiling, pageSize);
      if ceiling <= RESULT_WINDOW_LIMIT && pages * pageSize > RESULT_WINDOW_LIMIT
      then RESULT_WINDOW_LIMIT / pageSize
      else pages
  }

  lemma MulNonNegative(a: int, b: int)
    requires 0 <= a && 0 <= b
    ensures 0 <= a * b
  {
  }

  /** The offset reached after `pages` full pages: `pages * size`, by repeated addition. */
  function Offset(pages: nat, size: nat): (offset: nat) {
    if pages == 0 then 0 else Offset(pages - 1, size) + size
  }

  lemma {:induction false} OffsetIsProduct(pages: nat, size: nat)
    ensures Offset(pages, size) == pages * size
  {
    if pages != 0 {
      OffsetIsProduct(pages - 1, size);
      assert pages * size == (pages - 1) * size + size;
    }
  }

  lemma MulMonotone(a: int, b: int, s: int)
    requires a <= b && 0 <= s
    ensures a * s <= b * s
  {
  }

  lemma CeilDivBounds(a: int, b: nat)
    requires 0 <= a && 0 < b
    ensures a <= CeilDiv(a, b) * b < a + b
  {
  }

  /** `n` pages of `b` reach `a` items exactly when `n` is at least the page count. */
  lemma CeilDivIsLeast(a: int, b: nat, n: int)
    requires 0 <= a && 0 < b
    ensures CeilDiv(a, b) <= n <==> a <= n * b
  {
    CeilDivBounds(a, b);
    if CeilDiv(a, b) <= n {
      MulMonotone(CeilDiv(a, b), n, b);
    } else {
      MulMonotone(n + 1, CeilDiv(a, b), b);
    }
  }

  /**
   * A cap at a smaller page size keeps the caller's item ceiling: it reads at
   * least that many items and less than one page more, except where rounding up
   * would pass the server's offset limit, and there it stays within the limit
   * and short of it by less than one page.
   */
  lemma CapKeepsCeiling(limit: int, requestedSize: int, pageSize: int)
    requires 0 < limit && 0 < pageSize <= requestedSize
    ensures var ceiling := limit * requestedSize;
            var reach := PageLimitAt(limit, requestedSize, pageSize) * pageSize;
            if ceiling <= RESULT_WINDOW_LIMIT < CeilDiv(ceiling, pageSize) * pageSize && pageSize < requestedSize
            then RESULT_WINDOW_LIMIT - pageSize < reach <= RESULT_WINDOW_LIMIT
            else ceiling <= reach < ceiling + pageSize
    ensures PageLimitAt(limit, requestedSize, pageSize) * pageSize < limit * requestedSize + pageSize
    ensures limit * requestedSize <= RESULT_WINDOW_LIMIT
            ==> PageLimitAt(limit, requestedSize, pageSize) * pageSize <= RESULT_WINDOW_LIMIT
    ensures PageLimitAt(limit, requestedSize, pageSize) >= 1
  {
    var ceiling := limit * requestedSize;
    MulMonotone(1, limit, requestedSize);
    if pageSize < requestedSize {
      CeilDivBounds(ceiling, pageSize);
    } else {
      assert pageSize == requestedSize;
    }
  }

  lemma EarlierPagesBelow(nextPage: int, cap: int, size: int, bound: int)
    requires 0 < size && 1 <= nextPage <= cap
    requires cap * size < bound + size
    ensures 0 <= (nextPage - 1) * size < bound
  {
    MulMonotone(0, nextPage - 1, size);
    MulMonotone(nextPage, cap, size);
  }

  /**
   * A cap of `cap` pages that reaches `bound` items, or all but part of a page of them,
   * holds the whole pages of `x`.
   */
  lemma WholePagesWithin(x: int, size: int, cap: int, bound: int)
    requires 0 < size && 0 <= x < bound
    requires bound <= cap * size || (bound <= RESULT_WINDOW_LIMIT < cap * size + size)
    ensures x / size <= cap
  {
    if x / size > cap {
      MulMonotone(cap + 1, x / size, size);
    }
  }

  /**
   * What an attempt that failed before its last page has read never passes the
   * cap at the next, smaller size.
   */
  lemma ResumeStaysWithinCap(limit: int, requestedSize: int, size: int, newSize: int, nextPage: int)
    requires 0 < limit && 0 < newSize < size <= requestedSize
    requires 1 <= nextPage <= PageLimitAt(limit, requestedSize, size)
    ensures 0 <= (nextPage - 1) * size
    ensures (nextPage - 1) * size / newSize <= PageLimitAt(limit, requestedSize, newSize)
  {
    var ceiling := limit * requestedSize;
    CapKeepsCeiling(limit, requestedSize, size);
    CapKeepsCeiling(limit, requestedSize, newSize);
    EarlierPagesBelow(nextPage, PageLimitAt(limit, requestedSize, size), size, ceiling);
    WholePagesWithin((nextPage - 1) * size, newSize, PageLimitAt(limit, requestedSize, newSize), ceiling);
  }

  /** What the fetch learned about one endpoint; a size of 0 means nothing learned. */
  datatype LearnedPageSize = LearnedPageSize(sticky: nat, fast: nat, fastExpires: int) {
    predicate Valid() {
      && (sticky == 0 || IsFallbackSize(sticky))
      && (fast == 0 || IsFallbackSize(fast))
    }

    function SizeFor(requested: nat, now: int): (size: nat)
      ensures size <= requested && (0 < sticky ==> size <= sticky) && (0 < fast && now < fastExpires ==> size <= fast)
      ensures size == requested || (0 < sticky && size == sticky) || (0 < fast && now < fastExpires && size == fast)
    {
      var size := if 0 < sticky < requested then sticky else requested;
      if 0 < fast && now < fastExpires && fast < size then fast else size
    }

    /** Every fetch at `now` starts at `bound` or below. */
    ghost predicate StartsWithin(bound: nat, now: int) {
      forall requested: nat :: SizeFor(requested, now) <= bound
    }

    /** The smallest slow-learned size stays; a fast-learned one gives way to a smaller or when it has expired. */
    function Remember(size: nat, slow: bool, now: int): (learned: LearnedPageSize)
      ensures slow ==> learned.fast == fast && learned.fastExpires == fastExpires
      ensures slow ==> learned.sticky in {sticky, size} && (0 < size ==> 0 < learned.sticky <= size)
      ensures slow && 0 < sticky ==> learned.sticky <= sticky
      ensures !slow ==> learned.sticky == sticky
      ensures !slow ==> (learned.fast == size && learned.fastExpires == now + 300000)
                        || (learned == this && 0 < fast < size && now < fastExpires)
    {
      if slow then
        if sticky == 0 || size < sticky then this.(sticky := size) else this
      else if fast == 0 || fastExpires <= now || size <= fast then
        this.(fast := size, fastExpires := now + FAST_FALLBACK_MEMORY)
      else this
    }
  }

  const NOTHING_LEARNED := LearnedPageSize(0, 0, 0)

  /**
   * A size learned from a slow failure bounds every later fetch, whatever is
   * remembered after it and however much time passes.
   */
  lemma SlowSizeIsKeptForGood(l: LearnedPageSize, size: nat, now: int,
                              later: nat, slow: bool, then': int, requested: nat, at: int)
    requires 0 < size && 0 < later
    ensures l.Remember(size, true, now).SizeFor(requested, at) <= size
    ensures l.Remember(size, true, now).Remember(later, slow, then').SizeFor(requested, at) <= size
  {
  }

  /** A size learned from fast failures bounds every fetch of the next five minutes, unless a smaller one still does. */
  lemma FastSizeLasts(l: LearnedPageSize, size: nat, now: int, requested: nat, at: int)
    requires 0 < size && at < now + 300000
    ensures l.Remember(size, false, now).SizeFor(requested, at) <= size
            || (0 < l.fast < size && now < l.fastExpires <= at)
  {
  }

  /** Once a fast-learned size expires, the slow-learned size alone decides again. */
  lemma FastSizeExpires(l: LearnedPageSize, size: nat, now: int, requested: nat, at: int)
    requires 0 < size
    requires at >= now + FAST_FALLBACK_MEMORY
    requires l.fastExpires <= at
    ensures l.Remember(size, false, now).SizeFor(requested, at)
            == (if 0 < l.sticky < requested then l.sticky else requested)
  {
  }
}
