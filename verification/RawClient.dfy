/**
 * The paginated fetch: one logical fetch that survives server errors by moving to
 * smaller pages mid-walk and resuming at an aligned offset.
 *
 * The server is a function of the request's serial number (the tick), the page and
 * the page size, so it may answer any two requests differently.
 */
module RawClient {
  import opened Wrappers
  import opened PageSizes

  const DEFAULT_PAGE_SIZE := 500
  const SLOW_GATEWAY_TIMEOUT := 5000
  const MIN_PAGE_SIZE_SLOW_RETRIES := 2
  const PAGE_SIZE_FALLBACK_STATUSES: set<int> := {500, 502, 503, 504}

  datatype FetchError =
    | HttpError(status: int, elapsed: int)
    | Cancelled
    | Unreadable
    | EverySizeFailed(startSize: nat, lastSize: nat, cause: FetchError)

  /** What the server answers to one page request. */
  datatype PageReply<+T> = Failed(error: FetchError) | Page(items: seq<T>, total: Option<nat>)

  /** The world one fetch talks to, indexed by tick. */
  datatype Wire<!T> = Wire(fetch: (nat, nat, nat) -> PageReply<T>, cancelled: nat -> bool, now: nat -> int)

  datatype Reason = PageLimitClamp | UnknownTotal

  datatype PaginatedOpts = PaginatedOpts(path: string, maxPageSize: int, pageLimit: int, stopOnTruncation: bool)

  datatype PageResult<+T> = PageResult(
    items: seq<T>, total: nat, totalKnown: bool, fetched: nat, pagesRead: nat,
    requests: nat, pageSize: nat, pageLimit: int, truncated: bool, reason: Option<Reason>)

  datatype NextSize = Retry(size: nat) | GiveUp(error: FetchError)

  predicate IsSizeFallback(err: FetchError) {
    err.HttpError? && err.status in PAGE_SIZE_FALLBACK_STATUSES
  }

  function EffectivePageSize(opts: PaginatedOpts): (size: nat)
    ensures 0 < size
  {
    if opts.maxPageSize <= 0 then DEFAULT_PAGE_SIZE else opts.maxPageSize
  }

  // ---------------------------------------------------------------------------
  // Specification

  /** Page `page` of size `size` of a list, as a server cuts it. */
  function PageOf<T>(list: seq<T>, page: nat, size: nat): (items: seq<T>)
    requires 1 <= page
  {
    var start := Offset(page - 1, size);
    if |list| <= start then []
    else if |list| <= start + size then list[start..]
    else list[start..start + size]
  }

  /** The server serves the stable list `list`: a request may fail, but a page it answers is the right one. */
  ghost predicate Serves<T>(fetch: (nat, nat, nat) -> PageReply<T>, list: seq<T>) {
    forall tick: nat, page: nat, size: nat | 1 <= page && 1 <= size ::
      var reply := fetch(tick, page, size);
      reply.Failed? || (reply.items == PageOf(list, page, size) && (reply.total.Some? ==> reply.total.value == |list|))
  }

  /** Every page the server answers carries a readable total. */
  ghost predicate CarriesTotals<T>(fetch: (nat, nat, nat) -> PageReply<T>) {
    forall tick: nat, page: nat, size: nat | 1 <= page && 1 <= size ::
      var reply := fetch(tick, page, size);
      reply.Failed? || reply.total.Some?
  }

  /** What a successful fetch promises about the list it read. */
  ghost predicate Delivers<T>(res: PageResult<T>, list: seq<T>, opts: PaginatedOpts) {
    && res.items <= list
    && (res.totalKnown ==> res.total == |list|)
    && (res.reason.None? ==> res.items == list)
    && (res.reason == Some(PageLimitClamp) <==>
        res.totalKnown && 0 < opts.pageLimit && res.pageLimit * res.pageSize < |list|)
    && (res.reason == Some(PageLimitClamp) && !opts.stopOnTruncation ==> |res.items| == res.pageLimit * res.pageSize)
    && (res.reason == Some(UnknownTotal) ==> !res.totalKnown)
  }

  /** What every fetch reports truthfully about itself, whatever the server does. */
  ghost predicate Reports<T>(res: PageResult<T>, opts: PaginatedOpts) {
    && 1 <= res.requests
    && res.fetched == |res.items|
    && (res.truncated <==> res.reason.Some?)
    && 0 < res.pageSize <= EffectivePageSize(opts)
    && (res.pageSize == EffectivePageSize(opts) || IsFallbackSize(res.pageSize))
    && res.pageLimit == PageLimitAt(opts.pageLimit, EffectivePageSize(opts), res.pageSize)
  }

  /** No page asked for reaches past the server's offset limit. */
  ghost predicate WithinWindow(asked: seq<(nat, nat)>) {
    forall i | 0 <= i < |asked| :: asked[i].0 * asked[i].1 <= RESULT_WINDOW_LIMIT
  }

  /** Under stop-on-truncation this answer to page 1 ends the fetch: it is past the cap, or full and without a total. */
  ghost predicate Decides<T>(reply: PageReply<T>, opts: PaginatedOpts, size: nat)
    requires 0 < size
  {
    && reply.Page? && opts.stopOnTruncation && 0 < opts.pageLimit
    && (if reply.total.Some? then PageLimitAt(opts.pageLimit, EffectivePageSize(opts), size) * size < reply.total.value
        else size == EffectivePageSize(opts) == |reply.items|)
  }

  /** A fetch decided by one answer: one request, and the answer's own total. */
  ghost predicate DecidedBy<T>(res: PageResult<T>, reply: PageReply<T>) {
    && reply.Page? && res.totalKnown == reply.total.Some? && (reply.total.Some? ==> res.total == reply.total.value)
    && res.reason == Some(if reply.total.Some? then PageLimitClamp else UnknownTotal)
  }

  /** From `tick` on the first page is never served, at any size of the fallback sequence. */
  ghost predicate NeverServes<T>(wire: Wire<T>, tick: nat) {
    forall later: nat, size: nat | tick <= later && IsFallbackSize(size) :: wire.fetch(later, 1, size).Failed?
  }

  ghost predicate HeedsCancellation<T>(wire: Wire<T>, tick: nat, asked: seq<(nat, nat)>) {
    forall i | 0 <= i < |asked| && asked[i].0 != 1 :: !wire.cancelled(tick + i)
  }

  /** From `tick` on some request at this size fails this way, or the context has ended. */
  ghost predicate Blamed<T>(wire: Wire<T>, tick: nat, size: nat, e: FetchError) {
    || (exists at: nat, page: nat :: tick <= at && 1 <= page && wire.fetch(at, page, size) == Failed(e))
    || (e == Cancelled && exists at: nat :: tick <= at && wire.cancelled(at))
  }

  /** A server error that a smaller page may get past. */
  predicate IsServerError(e: FetchError) {
    e.HttpError? && e.status in {500, 502, 503, 504}
  }

  /**
   * No fallback follows this failure of an attempt: nothing smaller could help, or at
   * the smallest size it came within five seconds or after two retries.
   */
  predicate IsLastResort(e: FetchError, size: nat, retries: nat) {
    !IsServerError(e) || (size <= 50 && (e.elapsed < 5000 || retries == 2))
  }

  function AsGivenUp(startSize: nat, size: nat, cause: FetchError): (e: FetchError) {
    if !IsServerError(cause) || size == startSize then cause else EverySizeFailed(startSize, size, cause)
  }

  /** The only ways a fetch ends in an error: `retries` attempts were already repeated at this size. */
  ghost predicate GaveUp<T>(wire: Wire<T>, tick: nat, startSize: nat, size: nat, retries: nat, e: FetchError) {
    exists cause :: Blamed(wire, tick, size, cause) && IsLastResort(cause, size, retries)
                    && e == AsGivenUp(startSize, size, cause)
  }

  /**
   * From `tick` on nothing is cancelled, requests at this size do not fail, and those at
   * larger sizes only in a way that makes the fetch try a smaller one.
   */
  ghost predicate Survivable<T>(wire: Wire<T>, tick: nat, size: nat) {
    && (forall at: nat | tick <= at :: !wire.cancelled(at))
    && (forall at: nat, page: nat | tick <= at && 1 <= page :: wire.fetch(at, page, size).Page?)
    && (forall at: nat, page: nat, larger: nat | tick <= at && 1 <= page && size < larger ::
          var reply := wire.fetch(at, page, larger);
          reply.Failed? ==> IsServerError(reply.error))
  }

  /** An attempt fails only above such a size, and is then followed by one that is not below it. */
  lemma FailureIsAbove<T>(wire: Wire<T>, tick: nat, size: nat, pageSize: nat, retries: nat, e: FetchError)
    requires Survivable(wire, tick, size) && size <= pageSize && (IsFallbackSize(size) || size == pageSize)
    requires Blamed(wire, tick, pageSize, e)
    ensures size < pageSize && !IsLastResort(e, pageSize, retries)
    ensures NextSmallerPageSize(pageSize).Some? && size <= NextSmallerPageSize(pageSize).value
  {
  }

  ghost predicate CeilingWithinWindow(limit: int, requestedSize: int) {
    0 < limit && limit * requestedSize <= RESULT_WINDOW_LIMIT
  }

  // ---------------------------------------------------------------------------
  // The walk

  class PaginationWalk<T> {
    var items: seq<T>
    var total: nat
    var totalKnown: bool
    var started: bool
    var nextPage: nat
    var aligned: bool
    var lastFull: bool
    var pagesRead: nat
    var requests: nat
    /** Every page and size asked for, in order. */
    ghost var asked: seq<(nat, nat)>

    constructor ()
      ensures Blank() && requests == 0 && pagesRead == 0 && asked == []
    {
      items, total, totalKnown := [], 0, false;
      started, nextPage, aligned, lastFull := false, 1, true, false;
      pagesRead, requests, asked := 0, 0, [];
    }

    ghost predicate Blank()
      reads this
    {
      items == [] && !started && nextPage == 1 && aligned && !lastFull && !totalKnown
    }

    /**
     * The walk holds what `size`-item pages of `list` give: while every page was
     * full the items are exactly the pages before `nextPage`; after a short page
     * they are the whole list.
     */
    ghost predicate Tracks(list: seq<T>, size: nat)
      reads this
    {
      && (!started ==> Blank())
      && (started ==>
          && 2 <= nextPage
          && (totalKnown ==> total == |list|)
          && (aligned <==> lastFull)
          && (if aligned
              then Offset(nextPage - 1, size) <= |list| && items == list[..Offset(nextPage - 1, size)]
              else items == list && |list| <= Offset(nextPage - 1, size)))
    }

    /** The walk has passed neither the page cap nor the server's offset limit, and counted every request. */
    ghost predicate UnderCap(limit: int, requestedSize: nat, size: nat)
      requires 0 < requestedSize && 0 < size
      reads this
    {
      && 1 <= nextPage && requests == |asked| && (started ==> 0 < requests)
      && (!started ==> Blank())
      && (started && 0 < limit ==> nextPage <= PageLimitAt(limit, requestedSize, size) + 1)
      // len(items) is the offset reached while every page was full
      && (aligned ==> Offset(nextPage - 1, size) == |items|)
      && (CeilingWithinWindow(limit, requestedSize) ==> WithinWindow(asked))
    }

    /** No page after the first was asked for once the context had ended; request `i` was sent at `tick + i`. */
    ghost predicate Heeds(wire: Wire<T>, tick: nat)
      reads this
    {
      requests == |asked| && HeedsCancellation(wire, tick, asked)
    }

    /** All the pages of this size that `before` begins with, and the next one to ask for. */
    ghost predicate KeptWholePages(before: seq<T>, size: nat)
      reads this
    {
      && started && items <= before && |before| < |items| + size
      && 2 <= nextPage && |items| == Offset(nextPage - 1, size)
    }

    method Restart()
      modifies this
      ensures Blank()
      ensures requests == old(requests) && pagesRead == old(pagesRead) && asked == old(asked)
    {
      items, total, totalKnown := [], 0, false;
      started, nextPage, aligned, lastFull := false, 1, true, false;
    }

    /** Takes the total of page 1, when it can be read. */
    method Begin(pageTotal: Option<nat>)
      requires Blank()
      modifies this`total, this`totalKnown, this`started
      ensures started && totalKnown == pageTotal.Some? && (pageTotal.Some? ==> total == pageTotal.value)
    {
      total := if pageTotal.Some? then pageTotal.value else 0;
      totalKnown := pageTotal.Some?;
      started := true;
    }

    /**
     * Continues at a smaller size from the largest offset of the new pages already
     * reached. `list` is any list the walk may be tracking.
     */
    method Resize(size: nat, newSize: nat, limit: int, requestedSize: nat, ghost list: seq<T>)
      requires 0 < newSize < size <= requestedSize
      requires UnderCap(limit, requestedSize, size)
      requires started && 0 < limit ==> nextPage <= PageLimitAt(limit, requestedSize, size)
      modifies this
      ensures UnderCap(limit, requestedSize, newSize)
      ensures old(Tracks(list, size)) ==> Tracks(list, newSize)
      ensures if old(started && aligned) && newSize <= |old(items)| then KeptWholePages(old(items), newSize)
              else Blank()
      ensures started ==> totalKnown == old(totalKnown) && old(started)
      ensures requests == old(requests) && pagesRead == old(pagesRead) && asked == old(asked)
    {
      var keep := |items| / newSize * newSize;
      KeepsSomething(|items|, newSize);
      if !started || !aligned || keep == 0 {
        Restart();
        return;
      }
      var pages := keep / newSize;
      WholePages(|items|, newSize);
      OffsetIsProduct(nextPage - 1, size);
      OffsetIsProduct(pages, newSize);
      if 0 < limit {
        ResumeStaysWithinCap(limit, requestedSize, size, newSize, nextPage);
      }
      items := items[..keep];
      nextPage := pages + 1;
    }

    /** Goes on at the next size, which may be the same one again. */
    method MoveTo(size: nat, newSize: nat, limit: int, requestedSize: nat, ghost list: seq<T>)
      requires 0 < newSize <= size <= requestedSize
      requires UnderCap(limit, requestedSize, size)
      requires started && 0 < limit ==> nextPage <= PageLimitAt(limit, requestedSize, size)
      modifies this
      ensures UnderCap(limit, requestedSize, newSize)
      ensures old(Tracks(list, size)) ==> Tracks(list, newSize)
      ensures started ==> totalKnown == old(totalKnown) && old(started)
      ensures requests == old(requests) && asked == old(asked)
      ensures if newSize == size then items == old(items) && nextPage == old(nextPage) && started == old(started)
              else if old(started && aligned) && newSize <= |old(items)| then KeptWholePages(old(items), newSize)
              else Blank()
    {
      if newSize < size {
        Resize(size, newSize, limit, requestedSize, list);
      }
    }

    method Add(page: seq<T>, size: nat, ghost list: seq<T>)
      requires 1 <= nextPage && 0 < size && started
      requires aligned ==> Offset(nextPage - 1, size) == |items|
      modifies this
      ensures items == old(items) + page && nextPage == old(nextPage) + 1
      ensures lastFull == (|page| == size) && aligned == (old(aligned) && lastFull)
      ensures pagesRead == old(pagesRead) + 1 && requests == old(requests) && asked == old(asked)
      ensures total == old(total) && totalKnown == old(totalKnown) && started
      ensures aligned ==> Offset(nextPage - 1, size) == |items|
      ensures old(aligned) && old(items) <= list && (totalKnown ==> total == |list|)
              && page == PageOf(list, old(nextPage), size)
              ==> Tracks(list, size)
    {
      items := items + page;
      pagesRead := pagesRead + 1;
      nextPage := nextPage + 1;
      lastFull := |page| == size;
      aligned := aligned && lastFull;
    }

    /** How many pages an attempt reads, the cap at this size, and whether the cap cut the walk short. */
    method Bounds(limit: int, requestedSize: nat, size: nat) returns (pages: int, pageLimit: int, clamped: bool)
      requires 0 < size <= requestedSize
      ensures pageLimit == PageLimitAt(limit, requestedSize, size)
      ensures 0 < limit ==> 1 <= pageLimit && pages <= pageLimit
      ensures clamped ==> totalKnown && 0 < limit && pages == pageLimit
      ensures totalKnown ==> (clamped <==> 0 < limit && pageLimit * size < total)
      ensures totalKnown && !clamped ==> pages == TotalPages(total, size)
      ensures !totalKnown && size == requestedSize ==> pages <= 1
    {
      pageLimit := PageLimitAt(limit, requestedSize, size);
      if 0 < limit {
        CapKeepsCeiling(limit, requestedSize, size);
      } else {
        assert pageLimit == limit || pageLimit <= 0;
      }
      pages := TotalPages(total, size);
      CeilDivIsLeast(total, size, pageLimit);
      CeilDivIsLeast(requestedSize, size, 1);
      if !totalKnown {
        pages := CeilDiv(requestedSize, size);
      }
      if 0 < pageLimit < pages {
        return pageLimit, pageLimit, totalKnown;
      }
      return pages, pageLimit, false;
    }

    method Result(size: nat, pageLimit: int, clamped: bool) returns (res: PageResult<T>)
      ensures res.items == items && res.fetched == |items| && res.total == total && res.totalKnown == totalKnown
      ensures res.requests == requests && res.pagesRead == pagesRead
      ensures res.pageSize == size && res.pageLimit == pageLimit
      ensures res.reason == if !totalKnown && lastFull then Some(UnknownTotal)
                            else if clamped then Some(PageLimitClamp) else None
      ensures res.truncated <==> res.reason.Some?
    {
      var reason := None;
      if !totalKnown && lastFull {
        reason := Some(UnknownTotal);
      } else if clamped {
        reason := Some(PageLimitClamp);
      }
      res := PageResult(items, total, totalKnown, |items|, pagesRead, requests, size, pageLimit, reason.Some?, reason);
    }
  }

  lemma WholePages(n: nat, size: nat)
    requires 0 < size
    ensures 0 <= n / size * size <= n
    ensures n / size * size / size == n / size
  {
    QuotientOfMultiple(n / size, size);
  }

  /** Whole pages are kept exactly when there is one. */
  lemma KeepsSomething(n: nat, size: nat)
    requires 0 < size
    ensures 0 <= n / size * size <= n
    ensures n / size * size == 0 <==> n < size
  {
    WholePages(n, size);
    if size <= n {
      MulMonotone(1, n / size, size);
    }
  }

  lemma QuotientOfMultiple(q: nat, size: nat)
    requires 0 < size
    ensures 0 <= q * size
    ensures q * size / size == q
  {
    var back := q * size / size;
    if back < q {
      MulMonotone(back + 1, q, size);
    } else if q < back {
      MulMonotone(q + 1, back, size);
    }
  }

  // ---------------------------------------------------------------------------
  // What one fetch carries between attempts

  class FallbackState {
    var slowFailedAt: nat
    var minSizeRetries: nat

    constructor ()
      ensures slowFailedAt == 0 && minSizeRetries == 0
    {
      slowFailedAt, minSizeRetries := 0, 0;
    }

    /** A smaller size, the same size again after a slow failure at the minimum, or the error. */
    method Next(startSize: nat, pageSize: nat, err: FetchError) returns (next: NextSize)
      requires minSizeRetries <= MIN_PAGE_SIZE_SLOW_RETRIES
      modifies this
      ensures minSizeRetries <= MIN_PAGE_SIZE_SLOW_RETRIES
      ensures slowFailedAt ==
              if IsSizeFallback(err) && SLOW_GATEWAY_TIMEOUT <= err.elapsed then pageSize else old(slowFailedAt)
      ensures next.Retry? ==>
        && IsSizeFallback(err)
        && (50 < pageSize ==> NextSmallerPageSize(pageSize) == Some(next.size) && minSizeRetries == old(minSizeRetries))
        && (pageSize <= 50 ==> next.size == pageSize && minSizeRetries == old(minSizeRetries) + 1
                               && SLOW_GATEWAY_TIMEOUT <= err.elapsed)
      ensures next.GiveUp? <==> IsLastResort(err, pageSize, old(minSizeRetries))
      ensures next.GiveUp? ==> next.error == AsGivenUp(startSize, pageSize, err)
    {
      if !IsSizeFallback(err) {
        return GiveUp(err);
      }
      var slow := SLOW_GATEWAY_TIMEOUT <= err.elapsed;
      if slow {
        slowFailedAt := pageSize;
      }
      var smaller := NextSmallerPageSize(pageSize);
      if smaller.Some? {
        return Retry(smaller.value);
      }
      if slow && minSizeRetries < MIN_PAGE_SIZE_SLOW_RETRIES {
        minSizeRetries := minSizeRetries + 1;
        return Retry(pageSize);
      }
      return GiveUp(if pageSize == startSize then err else EverySizeFailed(startSize, pageSize, err));
    }
  }

  // ---------------------------------------------------------------------------
  // One attempt

  method FetchPage<T>(wire: Wire<T>, tick: nat, page: nat, size: nat, walk: PaginationWalk<T>)
    returns (reply: PageReply<T>)
    modifies walk`requests, walk`asked
    ensures walk.requests == old(walk.requests) + 1
    ensures walk.asked == old(walk.asked) + [(page, size)]
    ensures reply == wire.fetch(tick + old(walk.requests), page, size)
  {
    reply := wire.fetch(tick + walk.requests, page, size);
    walk.requests := walk.requests + 1;
    walk.asked := walk.asked + [(page, size)];
  }

  /** Reads page 1, which carries the total, unless an earlier attempt did. */
  method StartWalk<T>(wire: Wire<T>, tick: nat, limit: int, requestedSize: nat, size: nat, walk: PaginationWalk<T>,
                      ghost list: seq<T>)
    returns (err: Option<FetchError>)
    requires 0 < size <= requestedSize && walk.UnderCap(limit, requestedSize, size)
    modifies walk
    ensures walk.UnderCap(limit, requestedSize, size)
    ensures 0 < walk.requests && old(walk.requests) <= walk.requests
    ensures err.Some? <==> !walk.started
    ensures err.Some? ==> Blamed(wire, tick, size, err.value)
    ensures !old(walk.started) ==>
              var reply := wire.fetch(tick + old(walk.requests), 1, size);
              && (err.Some? <==> reply.Failed?) && walk.requests == old(walk.requests) + 1
              && (reply.Page? ==> walk.totalKnown == reply.total.Some?)
              && (reply.Page? && reply.total.Some? ==> walk.total == reply.total.value)
              && (reply.Page? ==> walk.nextPage == 2 && walk.lastFull == (|reply.items| == size))
    ensures CarriesTotals(wire.fetch) && (old(walk.started) ==> old(walk.totalKnown))
            ==> (walk.started ==> walk.totalKnown)
    ensures Serves(wire.fetch, list) && old(walk.Tracks(list, size)) ==> walk.Tracks(list, size)
    ensures old(walk.Heeds(wire, tick)) ==> walk.Heeds(wire, tick)
  {
    if walk.started {
      return None;
    }
    if 0 < limit {
      FirstPageWithinCap(limit, requestedSize, size);
    }
    var reply := FetchPage(wire, tick, 1, size, walk);
    if reply.Failed? {
      return Some(reply.error);
    }
    walk.Begin(reply.total);
    walk.Add(reply.items, size, list);
    return None;
  }

  /** Reads on up to `pages`; without a total, only while pages come back full. */
  method ReadPages<T>(wire: Wire<T>, tick: nat, size: nat, pages: int, walk: PaginationWalk<T>,
                      ghost list: seq<T>, ghost window: bool)
    returns (err: Option<FetchError>)
    requires 0 < size && walk.started && 1 <= walk.nextPage
    requires walk.aligned ==> Offset(walk.nextPage - 1, size) == |walk.items|
    requires window ==> pages * size <= RESULT_WINDOW_LIMIT && WithinWindow(walk.asked)
    modifies walk
    ensures walk.requests >= old(walk.requests) && walk.requests - |walk.asked| == old(walk.requests - |walk.asked|)
    ensures walk.started && old(walk.nextPage) <= walk.nextPage
    ensures walk.nextPage <= pages + 1 || walk.nextPage == old(walk.nextPage)
    ensures walk.totalKnown == old(walk.totalKnown) && walk.total == old(walk.total)
    ensures walk.aligned ==> Offset(walk.nextPage - 1, size) == |walk.items|
    ensures window ==> WithinWindow(walk.asked)
    ensures err.Some? ==> walk.nextPage <= pages && Blamed(wire, tick, size, err.value)
    ensures pages < old(walk.nextPage) ==> walk.requests == old(walk.requests) && walk.lastFull == old(walk.lastFull)
    ensures err.None? ==> pages < walk.nextPage || (!walk.totalKnown && !walk.lastFull)
    ensures Serves(wire.fetch, list) && old(walk.Tracks(list, size))
            && (walk.totalKnown ==> pages <= TotalPages(|list|, size))
            ==> walk.Tracks(list, size)
    ensures old(walk.Heeds(wire, tick)) ==> walk.Heeds(wire, tick)
  {
    hide HeedsCancellation, Serves, Offset, TotalPages;
    ghost var honest := Serves(wire.fetch, list) && walk.Tracks(list, size)
                        && (walk.totalKnown ==> pages <= TotalPages(|list|, size));
    while walk.nextPage <= pages && (walk.totalKnown || walk.lastFull)
      invariant walk.requests >= old(walk.requests) && walk.requests - |walk.asked| == old(walk.requests - |walk.asked|)
      invariant walk.started && old(walk.nextPage) <= walk.nextPage
      invariant walk.nextPage <= pages + 1 || walk.nextPage == old(walk.nextPage)
      invariant pages < old(walk.nextPage)
              ==> walk.requests == old(walk.requests) && walk.lastFull == old(walk.lastFull)
      invariant walk.totalKnown == old(walk.totalKnown) && walk.total == old(walk.total)
      invariant walk.aligned ==> Offset(walk.nextPage - 1, size) == |walk.items|
      invariant window ==> WithinWindow(walk.asked)
      invariant honest ==> walk.Tracks(list, size)
      invariant old(walk.Heeds(wire, tick)) ==> walk.Heeds(wire, tick)
      decreases pages - walk.nextPage
    {
      if wire.cancelled(tick + walk.requests) {
        return Some(Cancelled);
      }
      MulMonotone(walk.nextPage, pages, size);
      err := ReadNextPage(wire, tick, size, walk, list);
      if err.Some? {
        return;
      }
    }
    return None;
  }

  /** Reads one page at the walk's own offset. */
  method ReadNextPage<T>(wire: Wire<T>, tick: nat, size: nat, walk: PaginationWalk<T>, ghost list: seq<T>)
    returns (err: Option<FetchError>)
    requires 0 < size && walk.started && 1 <= walk.nextPage
    requires walk.aligned ==> Offset(walk.nextPage - 1, size) == |walk.items|
    modifies walk
    ensures walk.requests == old(walk.requests) + 1 && walk.asked == old(walk.asked) + [(old(walk.nextPage), size)]
    ensures walk.started && walk.nextPage == old(walk.nextPage) + if err.None? then 1 else 0
    ensures err.Some? ==> Blamed(wire, tick, size, err.value)
    ensures walk.totalKnown == old(walk.totalKnown) && walk.total == old(walk.total)
    ensures walk.aligned ==> Offset(walk.nextPage - 1, size) == |walk.items|
    ensures Serves(wire.fetch, list) && old(walk.Tracks(list, size)) && old(walk.lastFull || walk.totalKnown)
            && (walk.totalKnown ==> old(walk.nextPage) <= TotalPages(|list|, size))
            ==> walk.Tracks(list, size)
    ensures old(walk.Heeds(wire, tick)) && !wire.cancelled(tick + old(walk.requests)) ==> walk.Heeds(wire, tick)
  {
    ghost var page := walk.nextPage;
    var reply := FetchPage(wire, tick, walk.nextPage, size, walk);
    if reply.Failed? {
      return Some(reply.error);
    }
    if walk.totalKnown {
      CeilDivIsLeast(|list|, size, page - 1);
      OffsetIsProduct(page - 1, size);
    }
    walk.Add(reply.items, size, list);
    return None;
  }

  /** Reads one attempt's pages at `size`, continuing from what the walk already holds. */
  method WalkPages<T>(wire: Wire<T>, tick: nat, opts: PaginatedOpts, requestedSize: nat, size: nat,
                      walk: PaginationWalk<T>, ghost list: seq<T>)
    returns (res: PageResult<T>, err: Option<FetchError>)
    requires requestedSize == EffectivePageSize(opts)
    requires 0 < size <= requestedSize && (size == requestedSize || IsFallbackSize(size))
    requires walk.UnderCap(opts.pageLimit, requestedSize, size)
    modifies walk
    ensures walk.UnderCap(opts.pageLimit, requestedSize, size)
    ensures 0 < walk.requests
    ensures CarriesTotals(wire.fetch) && (old(walk.started) ==> old(walk.totalKnown))
            ==> (walk.started ==> walk.totalKnown)
    ensures err.None? ==> walk.started && res.totalKnown == walk.totalKnown
    ensures err.Some? ==> Blamed(wire, tick, size, err.value)
    ensures !old(walk.started) ==>
              var reply := wire.fetch(tick + old(walk.requests), 1, size);
              && (reply.Failed? ==> err.Some? && !walk.started)
              && (Decides(reply, opts, size)
                  ==> err.None? && DecidedBy(res, reply) && res.requests == old(walk.requests) + 1)
    ensures err.Some? && walk.started && 0 < opts.pageLimit
            ==> walk.nextPage <= PageLimitAt(opts.pageLimit, requestedSize, size)
    ensures Serves(wire.fetch, list) && old(walk.Tracks(list, size)) ==> walk.Tracks(list, size)
    ensures err.None? ==> Reports(res, opts) && res.pageSize == size && res.requests == walk.requests
    ensures err.None? && Serves(wire.fetch, list) && old(walk.Tracks(list, size)) ==> Delivers(res, list, opts)
    ensures old(walk.Heeds(wire, tick)) ==> walk.Heeds(wire, tick)
  {
    res := PageResult([], 0, false, 0, 0, 0, 0, 0, false, None);
    err := StartWalk(wire, tick, opts.pageLimit, requestedSize, size, walk, list);
    if err.Some? {
      return;
    }
    res, err := FinishPages(wire, tick, opts, requestedSize, size, walk, list);
  }

  /** What follows page 1, and the result. */
  method FinishPages<T>(wire: Wire<T>, tick: nat, opts: PaginatedOpts, requestedSize: nat, size: nat,
                        walk: PaginationWalk<T>, ghost list: seq<T>)
    returns (res: PageResult<T>, err: Option<FetchError>)
    requires requestedSize == EffectivePageSize(opts)
    requires 0 < size <= requestedSize && (size == requestedSize || IsFallbackSize(size))
    requires walk.UnderCap(opts.pageLimit, requestedSize, size) && walk.started
    modifies walk
    ensures walk.UnderCap(opts.pageLimit, requestedSize, size)
    ensures walk.started && walk.totalKnown == old(walk.totalKnown) && walk.total == old(walk.total)
    ensures err.Some? && 0 < opts.pageLimit ==> walk.nextPage <= PageLimitAt(opts.pageLimit, requestedSize, size)
    ensures err.Some? ==> Blamed(wire, tick, size, err.value)
    ensures Serves(wire.fetch, list) && old(walk.Tracks(list, size)) ==> walk.Tracks(list, size)
    ensures err.None? ==> Reports(res, opts) && res.pageSize == size && res.requests == walk.requests
    ensures err.None? ==> res.totalKnown == walk.totalKnown && res.total == walk.total
    ensures err.None? && Serves(wire.fetch, list) && old(walk.Tracks(list, size)) ==> Delivers(res, list, opts)
    ensures opts.stopOnTruncation && 0 < opts.pageLimit && walk.totalKnown
            && PageLimitAt(opts.pageLimit, requestedSize, size) * size < walk.total
            ==> err.None? && walk.requests == old(walk.requests) && res.reason == Some(PageLimitClamp)
    ensures !walk.totalKnown && size == requestedSize && 2 <= old(walk.nextPage) && old(walk.lastFull)
            ==> err.None? && walk.requests == old(walk.requests) && res.reason == Some(UnknownTotal)
    ensures old(walk.Heeds(wire, tick)) ==> walk.Heeds(wire, tick)
  {
    res := PageResult([], 0, false, 0, 0, 0, 0, 0, false, None);
    var pages, pageLimit, clamped;
    pages, pageLimit, clamped, err := ReadToEnd(wire, tick, opts, requestedSize, size, walk, list);
    if err.Some? {
      return;
    }
    res := walk.Result(size, pageLimit, clamped);
    if Serves(wire.fetch, list) && old(walk.Tracks(list, size)) {
      FinishedWalkDelivers(walk, res, list, opts, pages, clamped);
    }
  }

  /** The pages of an attempt that follow page 1, as many as the total and the cap allow. */
  method ReadToEnd<T>(wire: Wire<T>, tick: nat, opts: PaginatedOpts, requestedSize: nat, size: nat,
                      walk: PaginationWalk<T>, ghost list: seq<T>)
    returns (pages: int, pageLimit: int, clamped: bool, err: Option<FetchError>)
    requires requestedSize == EffectivePageSize(opts)
    requires 0 < size <= requestedSize
    requires walk.UnderCap(opts.pageLimit, requestedSize, size)
    requires walk.started
    modifies walk
    ensures walk.UnderCap(opts.pageLimit, requestedSize, size)
    ensures walk.started && walk.totalKnown == old(walk.totalKnown) && walk.total == old(walk.total)
    ensures err.Some? && 0 < opts.pageLimit ==> walk.nextPage <= PageLimitAt(opts.pageLimit, requestedSize, size)
    ensures err.Some? ==> Blamed(wire, tick, size, err.value)
    ensures Serves(wire.fetch, list) && old(walk.Tracks(list, size)) ==> walk.Tracks(list, size)
    ensures pageLimit == PageLimitAt(opts.pageLimit, requestedSize, size)
    ensures clamped ==> walk.totalKnown && 0 < opts.pageLimit && pages == pageLimit
    ensures walk.totalKnown ==> (clamped <==> 0 < opts.pageLimit && pageLimit * size < walk.total)
    ensures walk.totalKnown && !clamped ==> pages == TotalPages(walk.total, size)
    ensures err.None?
            ==> (clamped && opts.stopOnTruncation) || pages < walk.nextPage || (!walk.totalKnown && !walk.lastFull)
    ensures (clamped && opts.stopOnTruncation) || pages < old(walk.nextPage)
            ==> err.None? && walk.requests == old(walk.requests) && walk.lastFull == old(walk.lastFull)
    ensures !walk.totalKnown && size == requestedSize ==> pages <= 1
    ensures old(walk.Heeds(wire, tick)) ==> walk.Heeds(wire, tick)
  {
    ghost var window := CeilingWithinWindow(opts.pageLimit, requestedSize);
    pages, pageLimit, clamped := walk.Bounds(opts.pageLimit, requestedSize, size);
    if window {
      PagesWithinWindow(opts.pageLimit, requestedSize, size, pages);
    }
    if clamped {
      ClampedPages(walk.total, size, pageLimit);
    }
    err := None;
    if !(clamped && opts.stopOnTruncation) {
      err := ReadPages(wire, tick, size, pages, walk, list, window);
    }
  }

  lemma PagesWithinWindow(limit: int, requestedSize: nat, size: nat, pages: int)
    requires 0 < size <= requestedSize && CeilingWithinWindow(limit, requestedSize)
    requires pages <= PageLimitAt(limit, requestedSize, size)
    ensures pages * size <= RESULT_WINDOW_LIMIT
  {
    CapKeepsCeiling(limit, requestedSize, size);
    MulMonotone(pages, PageLimitAt(limit, requestedSize, size), size);
  }

  lemma FirstPageWithinCap(limit: int, requestedSize: nat, size: nat)
    requires 0 < size <= requestedSize && 0 < limit
    ensures 1 <= PageLimitAt(limit, requestedSize, size)
    ensures CeilingWithinWindow(limit, requestedSize) ==> size <= RESULT_WINDOW_LIMIT
  {
    CapKeepsCeiling(limit, requestedSize, size);
    MulMonotone(1, PageLimitAt(limit, requestedSize, size), size);
  }

  lemma ClampedPages(total: nat, size: nat, pageLimit: int)
    requires 0 < size && pageLimit * size < total
    ensures pageLimit <= TotalPages(total, size)
  {
    CeilDivIsLeast(total, size, pageLimit);
  }

  /** A walk that read every page it set out to read delivers what it claims. */
  lemma FinishedWalkDelivers<T>(walk: PaginationWalk<T>, res: PageResult<T>, list: seq<T>, opts: PaginatedOpts,
                                pages: int, clamped: bool)
    requires 0 < res.pageSize && walk.started && walk.Tracks(list, res.pageSize)
    requires walk.UnderCap(opts.pageLimit, EffectivePageSize(opts), res.pageSize)
    requires res.pageLimit == PageLimitAt(opts.pageLimit, EffectivePageSize(opts), res.pageSize)
    requires res.items == walk.items && res.total == walk.total && res.totalKnown == walk.totalKnown
    requires res.reason == if !walk.totalKnown && walk.lastFull then Some(UnknownTotal)
                           else if clamped then Some(PageLimitClamp) else None
    requires clamped ==> walk.totalKnown && 0 < opts.pageLimit && pages == res.pageLimit
    requires walk.totalKnown ==> (clamped <==> 0 < opts.pageLimit && res.pageLimit * res.pageSize < |list|)
    requires walk.totalKnown && !clamped ==> pages == TotalPages(|list|, res.pageSize)
    requires (clamped && opts.stopOnTruncation) || pages < walk.nextPage || (!walk.totalKnown && !walk.lastFull)
    ensures Delivers(res, list, opts)
  {
    OffsetIsProduct(walk.nextPage - 1, res.pageSize);
    var size, off := res.pageSize, Offset(walk.nextPage - 1, res.pageSize);
    if walk.totalKnown && !clamped {
      CeilDivIsLeast(|list|, size, walk.nextPage - 1);
      assert res.items == list;
    }
    if clamped && !opts.stopOnTruncation {
      assert walk.nextPage - 1 == res.pageLimit;
      assert off == res.pageLimit * size;
    }
  }

  // ---------------------------------------------------------------------------
  // The fetch

  class Client {
    var sizes: map<string, LearnedPageSize>

    constructor ()
      ensures Valid() && sizes == map[]
    {
      sizes := map[];
    }

    /** Only sizes of the fallback sequence are ever remembered. */
    ghost predicate Valid()
      reads this
    {
      forall path | path in sizes :: sizes[path].Valid()
    }

    function Learned(path: string): (l: LearnedPageSize)
      requires Valid()
      reads this
      ensures l.Valid()
    {
      if path in sizes then sizes[path] else NOTHING_LEARNED
    }

    /** `sticky` is what was kept before, or the largest size of the sequence below the one that failed slowly. */
    ghost predicate IsKeptForGood(before: nat, slowFailedAt: nat, sticky: nat) {
      || (sticky == before && 0 < before < slowFailedAt)
      || (IsFallbackSize(sticky) && sticky < slowFailedAt
          && forall s: nat :: IsFallbackSize(s) && s < slowFailedAt ==> s <= sticky)
    }

    method RememberFallback(path: string, size: nat, slowFailedAt: nat, now: int)
      requires Valid() && IsFallbackSize(size) && (slowFailedAt == 0 || size <= slowFailedAt)
      modifies this
      ensures Valid()
      ensures forall other | other != path :: (other in sizes <==> other in old(sizes))
                                              && (other in sizes ==> sizes[other] == old(sizes)[other])
      // a later fetch at once starts no higher than what worked
      ensures path in sizes && sizes[path].StartsWithin(size, now)
      // a slow failure keeps the size just below it for good
      ensures slowFailedAt > size
              ==> forall requested: nat, at: int :: sizes[path].SizeFor(requested, at) < slowFailedAt
      // which is no smaller than it has to be
      ensures slowFailedAt > size ==> IsKeptForGood(old(Learned(path)).sticky, slowFailedAt, sizes[path].sticky)
      // without one nothing is kept for good
      ensures slowFailedAt == 0 ==> sizes[path].sticky == old(Learned(path)).sticky
    {
      var l := Learned(path);
      if slowFailedAt == 0 {
        sizes := sizes[path := l.Remember(size, false, now)];
        return;
      }
      var below := NextSmallerPageSize(slowFailedAt);
      var sticky := if below.Some? then below.value else slowFailedAt;
      l := l.Remember(sticky, true, now);
      if size < sticky {
        l := l.Remember(size, false, now);
      }
      sizes := sizes[path := l];
    }

    /**
     * One logical fetch. `list` is any list the server may be serving; `asked` and
     * `attempts` say what was requested. Only a success at a smaller size is learned
     * from, and the next fetch of the path then starts no higher.
     */
    method GetPaginatedResult<T>(wire: Wire<T>, tick: nat, opts: PaginatedOpts, ghost list: seq<T>)
      returns (res: PageResult<T>, err: Option<FetchError>, ghost asked: seq<(nat, nat)>, ghost attempts: nat)
      requires Valid()
      modifies this
      ensures Valid()
      ensures Reports(res, opts) && res.requests == |asked|
      ensures err.Some? ==> res.items == [] && sizes == old(sizes)
      ensures attempts <= 7
      ensures CeilingWithinWindow(opts.pageLimit, EffectivePageSize(opts)) ==> WithinWindow(asked)
      ensures HeedsCancellation(wire, tick, asked)
      ensures err.None? && CarriesTotals(wire.fetch) ==> res.totalKnown
      ensures err.None? && Serves(wire.fetch, list) ==> Delivers(res, list, opts)
      ensures NeverServes(wire, tick) && IsFallbackSize(EffectivePageSize(opts)) ==> err.Some?
      ensures var size := old(Learned(opts.path)).SizeFor(EffectivePageSize(opts), wire.now(tick));
              && (forall s: nat | (IsFallbackSize(s) || s == size) && s <= size && Survivable(wire, tick, s) ::
                    err.None? && s <= res.pageSize)
              && (err.Some? ==> GivenUp(wire, tick, size, res.pageSize, attempts, err.value))
      ensures var size := old(Learned(opts.path)).SizeFor(EffectivePageSize(opts), wire.now(tick));
              0 < size && Decides(wire.fetch(tick, 1, size), opts, size)
              ==> err.None? && DecidedBy(res, wire.fetch(tick, 1, size)) && res.requests == 1
      ensures forall path | path != opts.path :: Learned(path) == old(Learned(path))
      ensures err.None? && old(Learned(opts.path)).SizeFor(EffectivePageSize(opts), wire.now(tick)) <= res.pageSize
              ==> sizes == old(sizes)
      ensures err.None? && res.pageSize < old(Learned(opts.path)).SizeFor(EffectivePageSize(opts), wire.now(tick))
              ==> Learned(opts.path).StartsWithin(res.pageSize, wire.now(tick + res.requests))
    {
      var startSize := Learned(opts.path).SizeFor(EffectivePageSize(opts), wire.now(tick));
      var slowFailedAt;
      res, err, slowFailedAt, asked, attempts := WalkWithFallback(wire, tick, opts, startSize, list);
      if err.None? && res.pageSize < startSize {
        RememberFallback(opts.path, res.pageSize, slowFailedAt, wire.now(tick + res.requests));
      }
    }
  }

  /** A fetch gave up after this many attempts, so with no more retries than those before the last. */
  ghost predicate GivenUp<T>(wire: Wire<T>, tick: nat, startSize: nat, size: nat, attempts: nat, e: FetchError) {
    exists retries: nat :: retries < attempts && GaveUp(wire, tick, startSize, size, retries, e)
  }

  /** What a failed fetch says about itself: no items, the last size tried, the requests it cost. */
  function FailedResult<T>(opts: PaginatedOpts, pageSize: nat, requests: nat): (res: PageResult<T>)
    requires 0 < pageSize <= EffectivePageSize(opts) && 1 <= requests
    requires pageSize == EffectivePageSize(opts) || IsFallbackSize(pageSize)
    ensures Reports(res, opts) && res.items == [] && res.pageSize == pageSize && res.requests == requests
  {
    PageResult([], 0, false, 0, 0, requests, pageSize,
               PageLimitAt(opts.pageLimit, EffectivePageSize(opts), pageSize), false, None)
  }

  /** Attempts at ever smaller sizes until one succeeds or the last resort fails too. */
  method WalkWithFallback<T>(wire: Wire<T>, tick: nat, opts: PaginatedOpts, startSize: nat, ghost list: seq<T>)
    returns (res: PageResult<T>, err: Option<FetchError>, slowFailedAt: nat, ghost asked: seq<(nat, nat)>,
             ghost attempts: nat)
    requires 0 < startSize <= EffectivePageSize(opts)
    requires startSize == EffectivePageSize(opts) || IsFallbackSize(startSize)
    ensures Reports(res, opts) && res.requests == |asked| && res.pageSize <= startSize
    ensures res.pageSize < startSize ==> IsFallbackSize(res.pageSize)
    ensures slowFailedAt == 0 || res.pageSize <= slowFailedAt
    ensures err.Some? ==> res.items == []
    ensures attempts <= 7
    ensures CeilingWithinWindow(opts.pageLimit, EffectivePageSize(opts)) ==> WithinWindow(asked)
    ensures err.None? && CarriesTotals(wire.fetch) ==> res.totalKnown
    ensures err.None? && Serves(wire.fetch, list) ==> Delivers(res, list, opts)
    ensures NeverServes(wire, tick) && IsFallbackSize(startSize) ==> err.Some?
    ensures forall s: nat | (IsFallbackSize(s) || s == startSize) && s <= startSize && Survivable(wire, tick, s) ::
              err.None? && s <= res.pageSize
    ensures err.Some? ==> GivenUp(wire, tick, startSize, res.pageSize, attempts, err.value)
    ensures var reply := wire.fetch(tick, 1, startSize);
            Decides(reply, opts, startSize) ==> err.None? && DecidedBy(res, reply) && res.requests == 1
    ensures HeedsCancellation(wire, tick, asked)
  {
    var requestedSize := EffectivePageSize(opts);
    var pageSize := startSize;
    var walk := new PaginationWalk<T>();
    var st := new FallbackState();
    attempts := 0;
    while true
      invariant 0 < pageSize <= startSize <= requestedSize
      invariant walk.UnderCap(opts.pageLimit, requestedSize, pageSize)
      invariant pageSize == startSize || IsFallbackSize(pageSize)
      invariant st.minSizeRetries <= MIN_PAGE_SIZE_SLOW_RETRIES
      invariant st.slowFailedAt == 0 || pageSize <= st.slowFailedAt
      invariant attempts + SizesLeft(pageSize) - st.minSizeRetries <= 5
      invariant CarriesTotals(wire.fetch) ==> (walk.started ==> walk.totalKnown)
      invariant NeverServes(wire, tick) && IsFallbackSize(startSize) ==> !walk.started
      invariant st.minSizeRetries <= attempts
      invariant forall s: nat | (IsFallbackSize(s) || s == startSize) && s <= startSize && Survivable(wire, tick, s) ::
                  s <= pageSize
      invariant if attempts == 0 then !walk.started && walk.requests == 0 && pageSize == startSize
                else !Decides(wire.fetch(tick, 1, startSize), opts, startSize)
      invariant Serves(wire.fetch, list) ==> walk.Tracks(list, pageSize)
      invariant walk.Heeds(wire, tick)
      invariant fresh(walk) && fresh(st)
      decreases pageSize, MIN_PAGE_SIZE_SLOW_RETRIES - st.minSizeRetries
    {
      attempts := attempts + 1;
      var next;
      res, err, next := Attempt(wire, tick, opts, startSize, pageSize, walk, st, list);
      asked, slowFailedAt := walk.asked, st.slowFailedAt;
      if next.None? {
        return;
      }
      pageSize := next.value;
    }
  }

  /** One attempt; `next` is the size of the one to follow, if any. */
  method Attempt<T>(wire: Wire<T>, tick: nat, opts: PaginatedOpts, startSize: nat, pageSize: nat,
                    walk: PaginationWalk<T>, st: FallbackState, ghost list: seq<T>)
    returns (res: PageResult<T>, err: Option<FetchError>, next: Option<nat>)
    requires 0 < pageSize <= startSize <= EffectivePageSize(opts)
    requires pageSize == EffectivePageSize(opts) || IsFallbackSize(pageSize)
    requires st.minSizeRetries <= MIN_PAGE_SIZE_SLOW_RETRIES && (st.slowFailedAt == 0 || pageSize <= st.slowFailedAt)
    requires walk.UnderCap(opts.pageLimit, EffectivePageSize(opts), pageSize)
    modifies walk, st
    ensures st.minSizeRetries <= MIN_PAGE_SIZE_SLOW_RETRIES && (st.slowFailedAt == 0 || pageSize <= st.slowFailedAt)
    ensures next.None?
            ==> Reports(res, opts) && res.pageSize == pageSize && res.requests == walk.requests == |walk.asked|
    ensures next.None? && CeilingWithinWindow(opts.pageLimit, EffectivePageSize(opts)) ==> WithinWindow(walk.asked)
    ensures next.None? && err.Some? ==> res.items == []
    ensures next.None? && err.Some?
            ==> GaveUp(wire, tick, startSize, pageSize, old(st.minSizeRetries), err.value)
    ensures forall s: nat | (IsFallbackSize(s) || s == pageSize) && s <= pageSize && Survivable(wire, tick, s) ::
              if next.None? then err.None? else s <= next.value
    ensures next.Some? ==> st.minSizeRetries <= old(st.minSizeRetries) + 1
    ensures next.Some? ==>
              && 0 < next.value <= pageSize && (next.value == pageSize || IsFallbackSize(next.value))
              && walk.UnderCap(opts.pageLimit, EffectivePageSize(opts), next.value)
              && SizesLeft(next.value) - st.minSizeRetries < SizesLeft(pageSize) - old(st.minSizeRetries)
              && (next.value == pageSize ==> old(st.minSizeRetries) < st.minSizeRetries)
    ensures CarriesTotals(wire.fetch) && (old(walk.started) ==> old(walk.totalKnown)) ==>
              (walk.started ==> walk.totalKnown) && (next.None? && err.None? ==> res.totalKnown)
    ensures Serves(wire.fetch, list) && old(walk.Tracks(list, pageSize)) ==>
              && (next.None? && err.None? ==> Delivers(res, list, opts))
              && (next.Some? ==> walk.Tracks(list, next.value))
    ensures !old(walk.started) ==>
              var reply := wire.fetch(tick + old(walk.requests), 1, pageSize);
              && (reply.Failed? ==> !walk.started && (next.None? ==> err.Some?))
              && (Decides(reply, opts, pageSize) ==>
                    next.None? && err.None? && DecidedBy(res, reply) && res.requests == old(walk.requests) + 1)
    ensures old(walk.Heeds(wire, tick)) ==> walk.Heeds(wire, tick)
  {
    res, err := WalkPages(wire, tick, opts, EffectivePageSize(opts), pageSize, walk, list);
    next := None;
    if err.Some? {
      forall s: nat | (IsFallbackSize(s) || s == pageSize) && s <= pageSize && Survivable(wire, tick, s)
        ensures s < pageSize && !IsLastResort(err.value, pageSize, st.minSizeRetries)
        ensures NextSmallerPageSize(pageSize).Some? && s <= NextSmallerPageSize(pageSize).value
      {
        FailureIsAbove(wire, tick, s, pageSize, st.minSizeRetries, err.value);
      }
      var fallback := FallBack(st, walk, opts, startSize, pageSize, err.value, list);
      match fallback
      case Retry(size) => next := Some(size);
      case GiveUp(error) => res, err := FailedResult(opts, pageSize, walk.requests), Some(error);
    }
  }

  /** After a failed attempt: the next size, with the walk moved to it, or the error to give up with. */
  method FallBack<T>(st: FallbackState, walk: PaginationWalk<T>, opts: PaginatedOpts, startSize: nat, pageSize: nat,
                     err: FetchError, ghost list: seq<T>)
    returns (next: NextSize)
    requires 0 < pageSize <= startSize <= EffectivePageSize(opts)
    requires st.minSizeRetries <= MIN_PAGE_SIZE_SLOW_RETRIES && (st.slowFailedAt == 0 || pageSize <= st.slowFailedAt)
    requires walk.UnderCap(opts.pageLimit, EffectivePageSize(opts), pageSize)
    requires walk.started && 0 < opts.pageLimit
             ==> walk.nextPage <= PageLimitAt(opts.pageLimit, EffectivePageSize(opts), pageSize)
    modifies st, walk
    ensures st.minSizeRetries <= MIN_PAGE_SIZE_SLOW_RETRIES && (st.slowFailedAt == 0 || pageSize <= st.slowFailedAt)
    ensures walk.requests == old(walk.requests) && walk.asked == old(walk.asked)
    ensures walk.started ==> old(walk.started) && walk.totalKnown == old(walk.totalKnown)
    ensures next.Retry? ==> 0 < next.size <= pageSize && (next.size == pageSize || IsFallbackSize(next.size))
    ensures next.GiveUp? <==> IsLastResort(err, pageSize, old(st.minSizeRetries))
    ensures next.GiveUp? ==> next.error == AsGivenUp(startSize, pageSize, err)
    ensures next.Retry? ==> next.size == if 50 < pageSize then NextSmallerPageSize(pageSize).value else pageSize
    ensures next.Retry? ==> st.minSizeRetries == old(st.minSizeRetries) + if 50 < pageSize then 0 else 1
    ensures next.Retry? ==> walk.UnderCap(opts.pageLimit, EffectivePageSize(opts), next.size)
    ensures next.Retry? && old(walk.Tracks(list, pageSize)) ==> walk.Tracks(list, next.size)
    ensures next.Retry? ==> SizesLeft(next.size) - st.minSizeRetries < SizesLeft(pageSize) - old(st.minSizeRetries)
    ensures next.Retry? && next.size == pageSize ==> old(st.minSizeRetries) < st.minSizeRetries
  {
    next := st.Next(startSize, pageSize, err);
    if next.Retry? {
      walk.MoveTo(pageSize, next.size, opts.pageLimit, EffectivePageSize(opts), list);
    }
  }

  /** How many fallback sizes lie at or below `size`, counting `size` itself when it is above them all. */
  function SizesLeft(size: nat): (n: nat) {
    if size > 500 then 5 else if size > 200 then 4 else if size > 100 then 3 else if size > 50 then 2 else 1
  }
}
