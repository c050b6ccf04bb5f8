/** The steps of the issue slicer as values: what it computes from one answer, and what each step covers. */
module SliceSteps {
  import opened Wrappers
  import opened PageSizes
  import opened RawClient
  import opened Windows
  import opened Depths
  import opened IssueServer
  import opened Facets
  import opened Reach
  import opened Coverage
  import T = Truncation

  const ISSUES_PATH := "api/issues/search"
  const ISSUE_PAGE_LIMIT := 20
  const ISSUE_PAGE_SIZE := 500
  const MAX_FACET_VALUES := 100
  const FACET_CASCADE_ORDER := [Rules, Directories, Files]

  datatype WalkError =
    | WalkCancelled
    | ZeroWidth
    | NoTotal
    | FetchFailed(error: FetchError)
    | DateBoundRejected(window: IssueWindow, error: FetchError)
    | SinkFailed

  function IssueOpts(stopOnTruncation: bool): (opts: PaginatedOpts) {
    PaginatedOpts(ISSUES_PATH, ISSUE_PAGE_SIZE, ISSUE_PAGE_LIMIT, stopOnTruncation)
  }

  /** The most items one window fetch can return. */
  function WindowCeiling(pageLimit: int, pageSize: int): (ceiling: int) {
    if pageLimit <= 0 || pageSize <= 0 then RESULT_WINDOW_LIMIT
    else if pageLimit * pageSize < RESULT_WINDOW_LIMIT then pageLimit * pageSize
    else RESULT_WINDOW_LIMIT
  }

  /** No page-size fallback moves the ceiling of an issue fetch. */
  lemma CeilingSurvivesFallback<T>(res: PageResult<T>, stop: bool)
    requires Reports(res, IssueOpts(stop))
    ensures WindowCeiling(res.pageLimit, res.pageSize) == RESULT_WINDOW_LIMIT
    ensures res.pageLimit * res.pageSize == RESULT_WINDOW_LIMIT
  {
    assert res.pageSize == 500 || res.pageSize == 200 || res.pageSize == 100 || res.pageSize == 50;
  }

  /** What every issue fetch reports truthfully about itself. */
  ghost predicate Tidy(res: PageResult<Issue>) {
    1 <= res.requests && res.fetched == |res.items| && (res.truncated <==> res.reason.Some?)
  }

  /** What an issue fetch brings of a selection: all of it, or the first 10,000 when there are more. */
  ghost predicate Brings(res: PageResult<Issue>, s: seq<Issue>, stop: bool) {
    && res.totalKnown && res.total == |s| && res.items <= s
    && res.reason == (if |s| <= RESULT_WINDOW_LIMIT then None else Some(PageLimitClamp))
    && (|s| <= RESULT_WINDOW_LIMIT ==> res.items == s)
    && (RESULT_WINDOW_LIMIT < |s| && !stop ==> |res.items| == RESULT_WINDOW_LIMIT)
  }

  /** Pagination correctness at the issue ceiling, whatever page size the fetch ended with. */
  lemma IssueFetchBrings(res: PageResult<Issue>, s: seq<Issue>, stop: bool)
    requires Reports(res, IssueOpts(stop)) && Delivers(res, s, IssueOpts(stop)) && res.totalKnown
    ensures Tidy(res) && Brings(res, s, stop)
  {
    CeilingSurvivesFallback(res, stop);
    match res.reason
    case None =>
    case Some(PageLimitClamp) =>
    case Some(UnknownTotal) =>
  }

  /** What an unsliced, capped fetch of the whole project returns. */
  function FirstPart(all: seq<Issue>): (first: seq<Issue>) {
    if |all| <= RESULT_WINDOW_LIMIT then all else all[..RESULT_WINDOW_LIMIT]
  }

  lemma CappedFetchIsFirstPart(res: PageResult<Issue>, all: seq<Issue>)
    requires Brings(res, all, false)
    ensures res.items == FirstPart(all)
  {
  }

  /** A fetch of a selection within the ceiling covers it with nothing booked. */
  lemma FittingFetchCovers(res: PageResult<Issue>, all: seq<Issue>, q: Query, before: Ledger)
    requires Tidy(res) && Brings(res, Select(all, q), false)
    requires |Select(all, q)| <= RESULT_WINDOW_LIMIT
    requires Windows.DistinctKeys(all) && Untouched(Select(all, q), before.seen)
    ensures !res.truncated && Covered(Select(all, q), before, AbsorbInto(before, res.items))
  {
    SelectKeepsKeysDistinct(all, q);
    AbsorbedPrefixCovers(Select(all, q), res.items, before);
  }

  function HttpStatus(e: FetchError): (status: Option<int>) {
    match e
    case HttpError(status, _) => Some(status)
    case EverySizeFailed(_, _, cause) => HttpStatus(cause)
    case _ => None
  }

  /** An HTTP error that can be the server refusing the date bounds a request carried. */
  function AsDateBoundRejection(w: IssueWindow, e: FetchError): (failure: WalkError) {
    var status := HttpStatus(e);
    if !w.Dated() || status.None? || status.value in {403, 404} then FetchFailed(e)
    else if status.value < 400 || 500 <= status.value || status.value in {408, 425, 429} then FetchFailed(e)
    else DateBoundRejected(w, e)
  }

  /** A client error of a dated request is such a refusal, unless it is about access, existence or load. */
  lemma DatedClientErrorsAreRejections(w: IssueWindow, status: int, elapsed: int)
    ensures AsDateBoundRejection(w, HttpError(status, elapsed)).DateBoundRejected? <==>
              (!w.openStart || !w.openEnd) && 400 <= status < 500 && status !in {403, 404, 408, 425, 429}
    ensures forall e, start: nat, last: nat ::
              AsDateBoundRejection(w, EverySizeFailed(start, last, e)).DateBoundRejected?
              <==> AsDateBoundRejection(w, e).DateBoundRejected?
    ensures AsDateBoundRejection(w, Cancelled) == FetchFailed(Cancelled)
    ensures AsDateBoundRejection(w, Unreadable) == FetchFailed(Unreadable)
  {
  }

  function ReasonOf(reason: Reason): (recorded: T.TruncationReason) {
    match reason
    case PageLimitClamp => T.PageLimitClamp
    case UnknownTotal => T.UnknownTotal
  }

  /** The facet counts of a cell reach the cell's own count. */
  method FacetCoversCell(values: seq<FacetValue>, cellTotal: int) returns (covers: bool)
    ensures covers <==> cellTotal <= SumCounts(values)
  {
    var sum := 0;
    for k := 0 to |values|
      invariant sum == SumCounts(values[..k])
    {
      sum := sum + values[k].count;
      assert values[..k + 1][..k] == values[..k];
    }
    assert values[..|values|] == values;
    covers := cellTotal <= sum;
  }

  // ---------------------------------------------------------------------------
  // Lemmas about one step of the walk

  /** The right half is untouched by covering the left. */
  lemma HalvesAreDisjoint(all: seq<Issue>, w: IssueWindow)
    requires w.Splittable()
    ensures var (left, right) := SplitWindow(w);
            && (forall i | i in Select(all, QueryOf(left, [])) :: i in Select(all, QueryOf(w, [])))
            && (forall i | i in Select(all, QueryOf(right, [])) ::
                  i in Select(all, QueryOf(w, [])) && i !in Select(all, QueryOf(left, [])))
  {
    var (left, right) := SplitWindow(w);
    SelectMembers(all, QueryOf(w, []));
    SelectMembers(all, QueryOf(left, []));
    SelectMembers(all, QueryOf(right, []));
    forall i: Issue
      ensures Selects(QueryOf(left, []), i) ==> Selects(QueryOf(w, []), i)
      ensures Selects(QueryOf(right, []), i) ==> Selects(QueryOf(w, []), i) && !Selects(QueryOf(left, []), i)
    {
      SplitIsPartition(w, i.created);
    }
  }

  lemma RightHalfStaysUntouched(all: seq<Issue>, w: IssueWindow, a: Ledger, b: Ledger)
    requires w.Splittable() && Windows.DistinctKeys(all)
    requires Untouched(Select(all, QueryOf(w, [])), a.seen) && Within(Select(all, QueryOf(SplitWindow(w).0, [])), a, b)
    ensures Untouched(Select(all, QueryOf(SplitWindow(w).1, [])), b.seen)
  {
    HalvesAreDisjoint(all, w);
    SelectMembers(all, QueryOf(w, []));
    var (left, right) := SplitWindow(w);
    RestStaysUntouched(all, Select(all, QueryOf(left, [])), Select(all, QueryOf(right, [])), a, b);
  }

  lemma HalvesCovered(all: seq<Issue>, w: IssueWindow, a: Ledger, b: Ledger, c: Ledger)
    requires w.Splittable()
    requires Within(Select(all, QueryOf(SplitWindow(w).0, [])), a, b)
    requires Within(Select(all, QueryOf(SplitWindow(w).1, [])), b, c)
    ensures Within(Select(all, QueryOf(w, [])), a, c)
    ensures Covered(Select(all, QueryOf(SplitWindow(w).0, [])), a, b)
            && Covered(Select(all, QueryOf(SplitWindow(w).1, [])), b, c)
            ==> Covered(Select(all, QueryOf(w, [])), a, c)
  {
    var l, r := Select(all, QueryOf(SplitWindow(w).0, [])), Select(all, QueryOf(SplitWindow(w).1, []));
    CoveredBoth(l, r, a, b, c);
    SplitKeepsSelection(all, w);
    CoveredReordered(l + r, Select(all, QueryOf(w, [])), a, c);
  }

  /** What the halves inherit from a window that is to be walked. */
  lemma HalvesAreWalkable(server: Server, all: seq<Issue>, w: IssueWindow, seen: set<string>)
    requires w.Splittable()
    ensures var (left, right) := SplitWindow(w);
            && left.start < left.end && right.start < right.end && OneEnded(left) && OneEnded(right)
            && (Untouched(Select(all, QueryOf(w, [])), seen) ==> Untouched(Select(all, QueryOf(left, [])), seen))
            && (Found(server, all, w) ==> Found(server, all, left) && Found(server, all, right))
  {
    HalvesAreDisjoint(all, w);
    if Bounded(all, w) {
      HalvesAreBounded(all, w);
    }
  }

  lemma HalvesAreBounded(all: seq<Issue>, w: IssueWindow)
    requires w.Splittable() && Bounded(all, w)
    ensures Bounded(all, SplitWindow(w).0) && Bounded(all, SplitWindow(w).1)
  {
    HalvesAreDisjoint(all, w);
    SelectedOf(all, SplitWindow(w).0);
    SelectedOf(all, SplitWindow(w).1);
  }

  /** A closed, one-second window over such a collection fits under the ceiling. */
  lemma OneSecondFits(all: seq<Issue>, w: IssueWindow)
    requires NoOverfullSecond(all) && !w.openStart && !w.openEnd && w.start < w.end && !w.Splittable()
    ensures |Select(all, QueryOf(w, []))| <= RESULT_WINDOW_LIMIT
  {
    assert QueryOf(w, []) == Query(Some(w.start), Some(w.start + 1), []);
  }

  lemma CellIsFilteredQuery(w: IssueWindow, filters: seq<Filter>, f: Facet, val: string)
    ensures QueryOf(w, filters + [(f, val)]) == CellQuery(QueryOf(w, filters), f, val)
  {
    assert (filters + [(f, val)])[..|filters + [(f, val)]| - 1] == filters;
  }

  lemma TypeCellIsFilteredQuery(w: IssueWindow, f: Facet, val: string)
    ensures QueryOf(w, [(f, val)]) == CellQuery(QueryOf(w, []), f, val)
  {
    CellIsFilteredQuery(w, [], f, val);
    assert [] + [(f, val)] == [(f, val)];
  }

  /** The next facet cell is untouched by covering the cells before it. */
  lemma NextCellIsUntouched(all: seq<Issue>, q: Query, f: Facet, values: seq<FacetValue>, k: nat, a: Ledger, b: Ledger)
    requires SingleValued(all) && Windows.DistinctKeys(all) && ExactBuckets(all, q, f, values) && k < |values|
    requires Untouched(Select(all, q), a.seen) && Covered(Cells(all, q, f, values[..k]), a, b)
    ensures Untouched(Select(all, CellQuery(q, f, values[k].val)), b.seen)
  {
    var done, cell := Cells(all, q, f, values[..k]), Select(all, CellQuery(q, f, values[k].val));
    SelectMembers(all, q);
    SelectMembers(all, CellQuery(q, f, values[k].val));
    CellsAreBuckets(all, q, f, values[..k]);
    forall i | i in cell ensures i in all && i !in done && i in Select(all, q) {
      CellNarrows(q, f, values[k].val, i);
      assert values[..k + 1][..k] == values[..k];
      BucketsAreDisjoint(all, f, values[..k + 1], i);
    }
    RestStaysUntouched(all, done, cell, a, b);
  }

  lemma NextCellCovered(all: seq<Issue>, q: Query, f: Facet, values: seq<FacetValue>, k: nat, a: Ledger, b: Ledger,
                        c: Ledger)
    requires k < |values|
    requires Covered(Cells(all, q, f, values[..k]), a, b)
    requires Covered(Select(all, CellQuery(q, f, values[k].val)), b, c)
    ensures Covered(Cells(all, q, f, values[..k + 1]), a, c)
  {
    CoveredBoth(Cells(all, q, f, values[..k]), Select(all, CellQuery(q, f, values[k].val)), a, b, c);
    assert values[..k + 1][..k] == values[..k];
  }

  /** Buckets that account for the whole cell, all of them covered, cover the cell. */
  lemma AllCellsCovered(all: seq<Issue>, q: Query, f: Facet, values: seq<FacetValue>, a: Ledger, b: Ledger)
    requires SingleValued(all) && ExactBuckets(all, q, f, values) && |Select(all, q)| <= SumCounts(values)
    requires Covered(Cells(all, q, f, values), a, b)
    ensures Covered(Select(all, q), a, b)
  {
    CoveringBucketsAreTheSelection(all, q, f, values);
    CoveredReordered(Cells(all, q, f, values), Select(all, q), a, b);
  }

  /** And hand it over whole when nothing was booked meanwhile. */
  lemma AllCellsHandedOver(all: seq<Issue>, q: Query, f: Facet, values: seq<FacetValue>, a: Ledger, b: Ledger)
    requires SingleValued(all) && ExactBuckets(all, q, f, values) && |Select(all, q)| <= SumCounts(values)
    requires Covered(Cells(all, q, f, values), a, b) && a.unique == |a.sunk| && b.unique == |b.sunk|
    ensures Covered(Select(all, q), a, b)
    ensures b.expectedLoss == a.expectedLoss ==> multiset(b.sunk) == multiset(a.sunk) + multiset(Select(all, q))
  {
    AllCellsCovered(all, q, f, values, a, b);
    if b.expectedLoss == a.expectedLoss {
      CoveredWithoutLoss(Select(all, q), a, b);
    }
  }

  // ---------------------------------------------------------------------------
  // What a walk asks before it starts

  /** The oldest and newest creation seconds, or 2006 until now when they give no range to bisect. */
  function RootOf(server: Server, tick: nat): (root: IssueWindow)
    ensures root.openStart && root.openEnd
  {
    var oldest := server.created(tick, QueryOf(ROOT_WINDOW, []), true);
    var newest := server.created(tick + 1, QueryOf(ROOT_WINDOW, []), false);
    if oldest.Some? && newest.Some? && 1 < newest.value + 1 - oldest.value
    then IssueWindow(oldest.value, newest.value + 1, true, true)
    else DefaultRoot(server, tick)
  }

  /** Both halves of the window are answered with at least the total. */
  predicate HalvesFull(server: Server, tick: nat, root: IssueWindow, total: int) {
    && root.Splittable()
    && var (left, right) := SplitWindow(root);
       var l, r := ReportedTotal(server, tick, QueryOf(left, [])), ReportedTotal(server, tick + 1, QueryOf(right, []));
       l.Some? && r.Some? && total <= l.value && total <= r.value
  }

  /** What makes a walk that begins at this tick conclude that its dates are ignored. */
  predicate FindsDatesIgnored(server: Server, tick: nat, total: int) {
    HalvesFull(server, tick + 2, RootOf(server, tick), total)
  }

  /** The undated fetch is refused from this tick on. */
  ghost predicate RefusesUndated(server: Server, tick: nat) {
    NeverServes(WireOf(server, QueryOf(ROOT_WINDOW, [])), tick)
  }

  lemma RootIsProper(server: Server, all: seq<Issue>, tick: nat)
    requires Settled(server, all)
    ensures RootOf(server, tick).Splittable()
  {
  }

  /** Two issues of different seconds, and a span that the backstop leaves room to bisect. */
  ghost predicate Spread(all: seq<Issue>) {
    && all != [] && !OneSecond(all)
    && Levels(Latest(all) + 1 - Earliest(all)) < MAX_SLICE_DEPTH
  }

  /** The root holds every issue and can be bisected down to single seconds, also when a date request fails. */
  lemma RootIsWithinReach(server: Server, all: seq<Issue>, tick: nat)
    requires Settled(server, all)
    requires WithinDefaultRange(server, all) || (DatesAnswer(server, all) && Spread(all))
    ensures Bounded(all, RootOf(server, tick)) && Reaches(all, RootOf(server, tick), 0)
  {
    if WithinDefaultRange(server, all) {
      RootIsWithinDefaultRange(server, all, tick);
    } else {
      RootIsTheSpan(server, all, tick);
    }
    hide Levels;
    BoundedIsReached(all, RootOf(server, tick), 0);
  }

  lemma RootIsWithinDefaultRange(server: Server, all: seq<Issue>, tick: nat)
    requires Settled(server, all) && WithinDefaultRange(server, all)
    ensures var root := RootOf(server, tick);
            Bounded(all, root) && Levels(root.end - root.start) < MAX_SLICE_DEPTH
  {
    hide Levels, Settled;
    var root, default := RootOf(server, tick), DefaultRoot(server, tick);
    if root != default {
      ProbedRoot(server, all, tick);
      var i, j :| i in all && j in all && root.start == i.created && root.end == j.created + 1;
      assert default.start <= i.created && j.created < default.end;
      SpanWithin(default.start, root.start, root.end, default.end);
    } else {
      RootSelectsAll(all, root);
    }
  }

  lemma SpanWithin(low: int, start: int, end: int, high: int)
    requires low <= start && end <= high
    ensures Levels(end - start) <= Levels(high - low)
  {
    LevelsMonotone(end - start, high - low);
  }

  /** 2006 until now. */
  function DefaultRoot(server: Server, tick: nat): (root: IssueWindow) {
    IssueWindow(DEFAULT_RANGE_START, server.now(tick + 2) / 1000 + 1, true, true)
  }

  /** Any other root reaches from the first issue of an honest server to its last. */
  lemma ProbedRoot(server: Server, all: seq<Issue>, tick: nat)
    requires Settled(server, all) && RootOf(server, tick) != DefaultRoot(server, tick)
    ensures var root := RootOf(server, tick);
            && Bounded(all, root)
            && exists i, j :: i in all && j in all && root.start == i.created && root.end == j.created + 1
  {
    SettledDate(server, all, QueryOf(ROOT_WINDOW, []), true, tick);
    SettledDate(server, all, QueryOf(ROOT_WINDOW, []), false, tick + 1);
    RootSelectsAll(all, ROOT_WINDOW);
    RootSelectsAll(all, RootOf(server, tick));
  }

  lemma RootIsTheSpan(server: Server, all: seq<Issue>, tick: nat)
    requires Settled(server, all) && DatesAnswer(server, all) && Spread(all)
    ensures Bounded(all, RootOf(server, tick))
    ensures RootOf(server, tick) == IssueWindow(Earliest(all), Latest(all) + 1, true, true)
  {
    hide Levels, Settled, DatesAnswer;
    ProbedSeconds(server, all, tick);
    RootSelectsAll(all, RootOf(server, tick));
    var i, j :| i in all && j in all && i.created != j.created;
    assert Earliest(all) < Latest(all);
  }

  lemma ProbedSeconds(server: Server, all: seq<Issue>, tick: nat)
    requires Settled(server, all) && DatesAnswer(server, all) && all != []
    ensures server.created(tick, QueryOf(ROOT_WINDOW, []), true) == Some(Earliest(all))
    ensures server.created(tick + 1, QueryOf(ROOT_WINDOW, []), false) == Some(Latest(all))
  {
    var q := QueryOf(ROOT_WINDOW, []);
    RootSelectsAll(all, ROOT_WINDOW);
    SettledDate(server, all, q, true, tick);
    SettledDate(server, all, q, false, tick + 1);
    assert server.created(tick, q, true).Some? && server.created(tick + 1, q, false).Some?;
    FirstIsEarliest(all, server.created(tick, q, true).value);
    LastIsLatest(all, server.created(tick + 1, q, false).value);
  }

  /** With every issue in one second the probed range cannot be bisected, and the walk starts from 2006 until now. */
  lemma OneSecondHasDefaultRoot(server: Server, all: seq<Issue>, tick: nat)
    requires Settled(server, all) && OneSecond(all)
    ensures RootOf(server, tick) == DefaultRoot(server, tick) && RootOf(server, tick).Splittable()
  {
    SettledDate(server, all, QueryOf(ROOT_WINDOW, []), true, tick);
    SettledDate(server, all, QueryOf(ROOT_WINDOW, []), false, tick + 1);
    RootSelectsAll(all, ROOT_WINDOW);
  }

  /** No request that can stop a walk fails. */
  ghost predicate Answering(server: Server, all: seq<Issue>) {
    Settled(server, all) && DatesAnswer(server, all) && PagesAnswer(server)
  }

  /** Too many issues, all in one second, which this window holds at a depth past the backstop. */
  ghost predicate Stuck(server: Server, all: seq<Issue>, w: IssueWindow, depth: nat) {
    && Answering(server, all) && OneSecond(all) && RESULT_WINDOW_LIMIT < |all|
    && Select(all, QueryOf(w, [])) == all && w.start < w.end && OneEnded(w)
    && !Reaches(all, w, depth)
  }

  /** An empty window, and a server that says so. */
  ghost predicate Hollow(server: Server, all: seq<Issue>, w: IssueWindow) {
    Settled(server, all) && PagesAnswer(server) && w.start < w.end && Select(all, QueryOf(w, [])) == []
  }

  lemma AnsweredPageReports(server: Server, all: seq<Issue>, tick: nat, q: Query)
    requires Settled(server, all) && PagesAnswer(server)
    ensures ReportedTotal(server, tick, q) == Some(|Select(all, q)|)
  {
    SettledPage(server, all, q);
    HonestPageServes(server, all, q);
  }

  /** What a walk learns about such windows. */
  lemma AnsweredWindow(server: Server, all: seq<Issue>, w: IssueWindow, depth: nat, tick: nat)
    ensures Stuck(server, all, w, depth) || Hollow(server, all, w) ==>
              && !server.cancelled(tick) && w.SafeToRequest()
              && ReportedTotal(server, tick, QueryOf(w, [])) == Some(|Select(all, QueryOf(w, []))|)
    ensures Stuck(server, all, w, depth) ==> RESULT_WINDOW_LIMIT < |Select(all, QueryOf(w, []))|
    ensures Hollow(server, all, w) ==> |Select(all, QueryOf(w, []))| == 0
  {
    if Settled(server, all) && PagesAnswer(server) {
      AnsweredPageReports(server, all, tick, QueryOf(w, []));
    }
  }

  lemma StuckHalf(server: Server, all: seq<Issue>, w: IssueWindow, depth: nat)
    requires Stuck(server, all, w, depth) && w.Splittable() && depth < MAX_SLICE_DEPTH
    ensures var (left, right) := SplitWindow(w);
            || Stuck(server, all, left, depth + 1)
            || (Hollow(server, all, left) && Stuck(server, all, right, depth + 1))
  {
    hide Reaches, Settled, DatesAnswer, PagesAnswer, OneSecond;
    HalfOutOfReach(all, w, depth);
  }

  /** Closing the edge of such a leaf would lose its issues, and widening it does not bring them closer. */
  lemma StuckLeafIsOpen(server: Server, all: seq<Issue>, w: IssueWindow, depth: nat)
    requires Stuck(server, all, w, depth) && !w.Splittable() && depth < MAX_SLICE_DEPTH
    ensures !HeldByBounds(all, w)
    ensures forall wide | WidensTo(all, w, wide) :: Stuck(server, all, wide, depth + 1)
  {
    LeafOutOfReach(all, w, depth);
    forall wide | WidensTo(all, w, wide) ensures Stuck(server, all, wide, depth + 1) {
      SelectedOf(all, w);
      WideningNeedsTheRest(Earliest(all), Latest(all), w, wide, depth, Earliest(all));
    }
  }

  lemma WideningKeepsReach(all: seq<Issue>, w: IssueWindow, wide: IssueWindow, depth: nat)
    requires !w.Splittable() && Select(all, QueryOf(w, [])) != [] && WidensTo(all, w, wide)
    ensures w.start < w.end && OneEnded(w) && Reaches(all, w, depth)
            ==> Reaches(all, wide, depth + 1) && OneEnded(wide)
  {
    if w.start < w.end && OneEnded(w) && Reaches(all, w, depth) {
      WideningReaches(all, w, wide, depth);
    }
  }

  /** The walk that begins at 2006 until now meets the backstop before it reaches this second. */
  predicate OutOfReach(second: int, now: int) {
    MAX_SLICE_DEPTH <= SpanLevels(DEFAULT_RANGE_START, now / 1000 + 1, second)
  }

  /**
   * With the clock between January 2023 and January 2040: a collection of one second
   * is out of reach exactly from three days before 2006 on, or 18 hours past now.
   */
  lemma OutOfReachInThisDecade(second: int, now: int)
    requires 0x2000_0000 < now / 1000 + 1 - DEFAULT_RANGE_START < 0x4000_0000
    ensures OutOfReach(second, now)
            <==> second <= DEFAULT_RANGE_START - 0x3_FFFF || now / 1000 + 0x1_0000 <= second
  {
    hide Levels, FirstLevels, PathLevels;
    var width := now / 1000 + 1 - DEFAULT_RANGE_START;
    ThirtyLevels(width);
    if second < DEFAULT_RANGE_START {
      EighteenLevels(DEFAULT_RANGE_START + 1 - second);
    } else if now / 1000 < second {
      EighteenLevels(second + 1 - now / 1000);
    } else {
      PathWithinLevels(width, second - DEFAULT_RANGE_START, width);
    }
  }

  lemma ThirtyLevels(width: int)
    requires 0x2000_0000 < width < 0x4000_0000
    ensures FirstLevels(width) == 29 && Levels(width) == 30
  {
    hide Levels, FirstLevels, Pow2;
    SomePowers();
    LevelsIsLog(width, 29);
    LevelsIsLog(width, 30);
    FirstLevelsIsLog(width, 29);
    FirstLevelsIsLog(width, 30);
  }

  lemma EighteenLevels(gap: int)
    requires 1 <= gap
    ensures 18 <= FirstLevels(gap) <==> 0x4_0000 <= gap
    ensures 17 <= Levels(gap) <==> 0x1_0000 < gap
  {
    hide Levels, FirstLevels, Pow2;
    SomePowers();
    FirstLevelsIsLog(gap, 18);
    LevelsIsLog(gap, 16);
  }

  /** There are such collections, of any size past the result limit, on servers that never fail. */
  lemma BackstopIsMet(n: nat, second: int, now: int)
    requires RESULT_WINDOW_LIMIT < n && DEFAULT_RANGE_START < now / 1000 && OutOfReach(second, now)
    ensures exists server: Server, all: seq<Issue> ::
              && |all| == n && Answering(server, all) && OneSecond(all)
              && OutOfReach(all[0].created, server.now(3))
  {
    var all := InOneSecond(n, second);
    OneSecondIsPlain(n, second);
    HonestServersExist(all, now);
    assert Answering(PlainServer(all, now), all) && PlainServer(all, now).now(3) == now;
  }

  /** What is within reach of a walk that begins at this tick. */
  lemma FetchIsWithinReach(server: Server, all: seq<Issue>, tick: nat)
    ensures var root := RootOf(server, tick);
            && (Settled(server, all) && (WithinDefaultRange(server, all) || (DatesAnswer(server, all) && Spread(all)))
                ==> Found(server, all, root) && Reaches(all, root, 0))
            && (Answering(server, all) && OneSecond(all) && RESULT_WINDOW_LIMIT < |all| ==>
                  && (Reaches(all, root, 0) <==> !OutOfReach(all[0].created, server.now(tick + 2)))
                  && (Stuck(server, all, root, 0) <==> !Reaches(all, root, 0)))
  {
    if Settled(server, all) && (WithinDefaultRange(server, all) || (DatesAnswer(server, all) && Spread(all))) {
      RootIsWithinReach(server, all, tick);
    }
    if Answering(server, all) && OneSecond(all) && RESULT_WINDOW_LIMIT < |all| {
      OneSecondOutcome(server, all, tick);
    }
  }

  /** With every issue in one second the spans alone decide whether the walk reaches it. */
  lemma OneSecondOutcome(server: Server, all: seq<Issue>, tick: nat)
    requires Answering(server, all) && OneSecond(all) && RESULT_WINDOW_LIMIT < |all|
    ensures var root := RootOf(server, tick);
            && (Reaches(all, root, 0) <==> !OutOfReach(all[0].created, server.now(tick + 2)))
            && (Stuck(server, all, root, 0) <==> !Reaches(all, root, 0))
  {
    hide Reaches, OutOfReach;
    OneSecondHasDefaultRoot(server, all, tick);
    RootSelectsAll(all, RootOf(server, tick));
    OneSecondFromDefaultRange(all, server.now(tick + 2));
  }

  lemma OneSecondFromDefaultRange(all: seq<Issue>, now: int)
    requires OneSecond(all) && all != [] && DEFAULT_RANGE_START < now / 1000
    ensures Reaches(all, IssueWindow(DEFAULT_RANGE_START, now / 1000 + 1, true, true), 0)
            <==> !OutOfReach(all[0].created, now)
  {
    hide SpanLevels, Reaches;
    assert all[0] in all;
    OneSecondReach(all, IssueWindow(DEFAULT_RANGE_START, now / 1000 + 1, true, true), all[0].created);
  }

  /** A server that honours the bounds cannot answer both halves with everything. */
  lemma HonestHalvesAreNotFull(server: Server, all: seq<Issue>, tick: nat, root: IssueWindow)
    requires Settled(server, all) && root.openStart && root.openEnd && all != []
    ensures !HalvesFull(server, tick, root, |all|)
  {
    if root.Splittable() {
      var (left, right) := SplitWindow(root);
      var halves := Select(all, QueryOf(left, [])) + Select(all, QueryOf(right, []));
      SettledPage(server, all, QueryOf(left, []));
      SettledPage(server, all, QueryOf(right, []));
      HonestPageServes(server, all, QueryOf(left, []));
      HonestPageServes(server, all, QueryOf(right, []));
      SplitKeepsSelection(all, root);
      RootSelectsAll(all, root);
      assert |multiset(all)| == |all| && |multiset(halves)| == |halves|;
    }
  }

  /** A server that drops the date parameters is found out whenever it answers. */
  lemma DroppedDatesFillHalves(server: Server, all: seq<Issue>, tick: nat, root: IssueWindow)
    requires IgnoresDates(server, all) && root.Splittable()
    requires ReportedTotal(server, tick, QueryOf(SplitWindow(root).0, [])).Some?
    requires ReportedTotal(server, tick + 1, QueryOf(SplitWindow(root).1, [])).Some?
    ensures HalvesFull(server, tick, root, |all|)
  {
  }

  /** What the check of the dates can conclude about an honest server, and about one that drops them. */
  lemma DatesCheckIsRight(server: Server, all: seq<Issue>, tick: nat)
    ensures Settled(server, all) ==> RootOf(server, tick).Splittable()
    ensures Settled(server, all) && all != [] ==> !FindsDatesIgnored(server, tick, |all|)
    ensures Settled(server, all) && PagesAnswer(server) ==>
              var (left, right) := SplitWindow(RootOf(server, tick));
              && ReportedTotal(server, tick + 2, QueryOf(left, [])).Some?
              && ReportedTotal(server, tick + 3, QueryOf(right, [])).Some?
    ensures IgnoresDates(server, all) ==>
              var root := RootOf(server, tick);
              && root.Splittable()
              && (ReportedTotal(server, tick + 2, QueryOf(SplitWindow(root).0, [])).Some?
                  && ReportedTotal(server, tick + 3, QueryOf(SplitWindow(root).1, [])).Some?
                  ==> FindsDatesIgnored(server, tick, |all|))
  {
    if Settled(server, all) {
      RootIsProper(server, all, tick);
      if PagesAnswer(server) {
        AnsweredPageReports(server, all, tick + 2, QueryOf(SplitWindow(RootOf(server, tick)).0, []));
        AnsweredPageReports(server, all, tick + 3, QueryOf(SplitWindow(RootOf(server, tick)).1, []));
      }
      if all != [] {
        HonestHalvesAreNotFull(server, all, tick + 2, RootOf(server, tick));
      }
    }
  }

  /**
   * A server that answers the first fetch, with this total or with none, and every
   * one-row request, but refuses every fetch after the first.
   */
  function RefusingServer(total: Option<nat>, now: int): (server: Server) {
    Server(
      (tick: nat, q: Query, page: nat, size: nat) =>
        if size == 1 then Page([], total)
        else if tick == 0 then Page(seq(size, _ => Issue("", 0, {})), total)
        else Failed(HttpError(401, 0)),
      (tick: nat, q: Query, oldest: bool) => None,
      (tick: nat, q: Query, f: Facet) => FacetFailed(HttpError(401, 0)),
      (tick: nat) => false, (tick: nat) => now, (tick: nat) => false, false)
  }

  lemma RefusingServerRefuses(total: Option<nat>, now: int)
    requires DEFAULT_RANGE_START < now / 1000
    ensures var server := RefusingServer(total, now);
            && RefusesUndated(server, 1)
            && (total.Some? ==> forall tick: nat :: FindsDatesIgnored(server, tick, total.value))
  {
  }

  const EMPTY_BOOKS := Ledger({}, 0, 0, 0, [])

  lemma RootSelectsAll(all: seq<Issue>, root: IssueWindow)
    ensures root.openStart && root.openEnd ==> Select(all, QueryOf(root, [])) == all
  {
    if root.openStart && root.openEnd {
      SelectAll(all, QueryOf(root, []));
    }
  }

  /** Closing the open edges selects no issue more. */
  lemma ClosingSelectsNoMore(all: seq<Issue>, w: IssueWindow)
    ensures forall i | i in Select(all, QueryOf(IssueWindow(w.start, w.end, false, false), [])) ::
              i in Select(all, QueryOf(w, []))
  {
    SelectMembers(all, QueryOf(IssueWindow(w.start, w.end, false, false), []));
    SelectMembers(all, QueryOf(w, []));
  }

  lemma ClosedPartWithin(all: seq<Issue>, w: IssueWindow, a: Ledger, b: Ledger)
    requires Within(Select(all, QueryOf(IssueWindow(w.start, w.end, false, false), [])), a, b)
    ensures Within(Select(all, QueryOf(w, [])), a, b)
  {
    var closed := QueryOf(IssueWindow(w.start, w.end, false, false), []);
    forall i ensures multiset(Select(all, closed))[i] <= multiset(Select(all, QueryOf(w, [])))[i] {
      SelectMultiplicity(all, closed, i);
      SelectMultiplicity(all, QueryOf(w, []), i);
    }
    WithinPart(Select(all, closed), Select(all, QueryOf(w, [])), a, b);
  }

  /** Once nothing lies beyond the arithmetic bounds, closing the edges selects the same issues. */
  lemma ClosingLosesNothing(all: seq<Issue>, w: IssueWindow)
    requires HeldByBounds(all, w)
    ensures Select(all, QueryOf(IssueWindow(w.start, w.end, false, false), [])) == Select(all, QueryOf(w, []))
  {
    SelectMembers(all, QueryOf(w, []));
    var closed := IssueWindow(w.start, w.end, false, false);
    forall i | i in all ensures Selects(QueryOf(w, []), i) <==> Selects(QueryOf(closed, []), i) {
      if Selects(QueryOf(w, []), i) {
        assert i in Select(all, QueryOf(w, []));
      }
    }
    SameSelection(all, QueryOf(w, []), QueryOf(closed, []));
  }

  /** Buckets with a zero count are dropped before anyone sees them. */
  function NonZero(values: seq<FacetValue>): (kept: seq<FacetValue>)
    ensures |kept| <= |values|
    ensures forall v :: v in kept <==> v in values && 0 < v.count
  {
    if values == [] then []
    else NonZero(values[..|values| - 1]) + if values[|values| - 1].count > 0 then [values[|values| - 1]] else []
  }

  lemma SumCountsAppend(values: seq<FacetValue>, v: FacetValue)
    ensures SumCounts(values + [v]) == SumCounts(values) + v.count
  {
    assert (values + [v])[..|values + [v]| - 1] == values;
  }

  lemma {:induction false} NonZeroKeepsSum(values: seq<FacetValue>)
    ensures SumCounts(NonZero(values)) == SumCounts(values)
  {
    if values != [] {
      var init, last := values[..|values| - 1], values[|values| - 1];
      NonZeroKeepsSum(init);
      if last.count > 0 {
        SumCountsAppend(NonZero(init), last);
      } else {
        assert NonZero(values) == NonZero(init);
      }
    }
  }

  ghost predicate DistinctVals(values: seq<FacetValue>) {
    forall a, b | 0 <= a < b < |values| :: values[a].val != values[b].val
  }

  lemma {:induction false} NonZeroKeepsValsDistinct(values: seq<FacetValue>)
    requires DistinctVals(values)
    ensures DistinctVals(NonZero(values))
  {
    if values != [] {
      var init, last := values[..|values| - 1], values[|values| - 1];
      NonZeroKeepsValsDistinct(init);
      forall v | v in init ensures v.val != last.val {
        var b :| 0 <= b < |init| && init[b] == v;
        assert values[b].val != values[|values| - 1].val;
      }
    }
  }

  /** Dropping empty buckets keeps the rest exact and complete. */
  lemma NonZeroBuckets(all: seq<Issue>, q: Query, f: Facet, values: seq<FacetValue>)
    ensures SumCounts(NonZero(values)) == SumCounts(values)
    ensures ExactBuckets(all, q, f, values) ==> ExactBuckets(all, q, f, NonZero(values))
  {
    NonZeroKeepsSum(values);
    if ExactBuckets(all, q, f, values) {
      assert DistinctVals(values);
      NonZeroKeepsValsDistinct(values);
      forall a | 0 <= a < |NonZero(values)|
        ensures NonZero(values)[a].val != ""
                && NonZero(values)[a].count == |Select(all, CellQuery(q, f, NonZero(values)[a].val))|
      {
        assert NonZero(values)[a] in values;
      }
    }
  }

  // ---------------------------------------------------------------------------
  // What the cascade needs of the facets

  /** The buckets of a facet that account for a whole selection, no value left out and none made up. */
  ghost predicate AllBuckets(all: seq<Issue>, q: Query, f: Facet, values: seq<FacetValue>) {
    && SumCounts(values) == |Select(all, q)| && (Select(all, q) != [] ==> values != [])
    && |values| <= |ValuesOf(Select(all, q), f)|
    && (forall k | 0 <= k < |values| :: values[k].val in ValuesOf(Select(all, q), f))
  }

  lemma ProbedBuckets(server: Server, all: seq<Issue>, q: Query, f: Facet, tick: nat)
    requires Settled(server, all) && FacetsAnswer(server, all) && Partitions(all, q, f)
    ensures var reply := server.facet(tick, q, f);
            reply.Buckets? && AllBuckets(all, q, f, NonZero(reply.values))
  {
    var reply := server.facet(tick, q, f);
    SettledFacet(server, all, q, f, tick);
    assert IsComplete(all, q, f, reply);
    NonZeroBuckets(all, q, f, reply.values);
    CompleteBucketsCover(all, q, f, reply.values);
    var values := NonZero(reply.values);
    BucketsAreValues(all, q, f, values);
    forall k | 0 <= k < |values| ensures values[k].val in ValuesOf(Select(all, q), f) {
      assert values[k] in values;
    }
    assert SumCounts([]) == 0;
  }

  /** What dropping the empty buckets of an answer leaves. */
  lemma FacetReplyIsRight(server: Server, all: seq<Issue>, q: Query, f: Facet, tick: nat)
    ensures var reply := server.facet(tick, q, f);
            && (Settled(server, all) && reply.Buckets? ==>
                  var values := NonZero(reply.values);
                  && ExactBuckets(all, q, f, values)
                  && (IsTaxonomyFacet(f) && values != [] ==> SumCounts(values) == |Select(all, q)|))
            && (Settled(server, all) && FacetsAnswer(server, all) && Partitions(all, q, f) ==>
                  reply.Buckets? && AllBuckets(all, q, f, NonZero(reply.values)))
  {
    var reply := server.facet(tick, q, f);
    if Settled(server, all) && reply.Buckets? {
      SettledFacet(server, all, q, f, tick);
      NonZeroBuckets(all, q, f, reply.values);
      CoveringBucketsAreTheSelection(all, q, f, reply.values);
    }
    if Settled(server, all) && FacetsAnswer(server, all) && Partitions(all, q, f) {
      ProbedBuckets(server, all, q, f, tick);
    }
  }

  /** The facets resolve what these filters leave of a window. */
  ghost predicate CanResolve(server: Server, all: seq<Issue>, w: IssueWindow, filters: seq<Filter>, order: seq<Facet>) {
    FacetsAnswer(server, all) && w.SafeToRequest() && Resolves(all, QueryOf(w, filters), order)
  }

  /** They resolve each cell of these values. */
  ghost predicate CanResolveCells(server: Server, all: seq<Issue>, w: IssueWindow, filters: seq<Filter>, f: Facet,
                                  values: seq<FacetValue>, rest: seq<Facet>)
  {
    && FacetsAnswer(server, all) && w.SafeToRequest()
    && (forall k | 0 <= k < |values| :: Resolves(all, CellQuery(QueryOf(w, filters), f, values[k].val), rest))
  }

  ghost predicate CanResolveTypes(server: Server, all: seq<Issue>, w: IssueWindow, types: Facet, severities: Facet,
                                  values: seq<FacetValue>)
  {
    && FacetsAnswer(server, all) && w.SafeToRequest()
    && (forall k | 0 <= k < |values| :: TypeResolves(all, CellQuery(QueryOf(w, []), types, values[k].val), severities))
  }

  /** A cell too large to fetch that the facets resolve is resolved through its next facet. */
  lemma ResolvesByNext(server: Server, all: seq<Issue>, w: IssueWindow, filters: seq<Filter>, order: seq<Facet>,
                       values: seq<FacetValue>)
    requires CanResolve(server, all, w, filters, order) && RESULT_WINDOW_LIMIT < |Select(all, QueryOf(w, filters))|
    ensures FacetsAnswer(server, all) && w.SafeToRequest()
    ensures order != [] && Partitions(all, QueryOf(w, filters), order[0])
    ensures AllBuckets(all, QueryOf(w, filters), order[0], values) ==>
              && 0 < |values| <= MAX_FACET_VALUES && SumCounts(values) == |Select(all, QueryOf(w, filters))|
              && CanResolveCells(server, all, w, filters, order[0], values, order[1..])
  {
  }

  /** A closed window that cannot be split. */
  predicate IsLeaf(w: IssueWindow) {
    !w.openStart && !w.openEnd && !w.Splittable()
  }

  /** A closed second that holds more than one request returns. */
  ghost predicate IsOverfullSecond(all: seq<Issue>, w: IssueWindow) {
    && !w.openStart && !w.openEnd && w.start < w.end && !w.Splittable()
    && RESULT_WINDOW_LIMIT < |Select(all, QueryOf(w, []))|
  }

  /** An overfull second of a recoverable collection is resolved by its types and severities. */
  lemma OverfullSecondResolves(server: Server, all: seq<Issue>, w: IssueWindow, types: Facet, severities: Facet,
                               values: seq<FacetValue>)
    requires Recoverable(server, all) && IsOverfullSecond(all, w)
    requires if server.mqr then types == ImpactSoftwareQualities && severities == ImpactSeverities
             else types == Types && severities == Severities
    ensures FacetsAnswer(server, all) && w.SafeToRequest() && Partitions(all, QueryOf(w, []), types)
    ensures AllBuckets(all, QueryOf(w, []), types, values)
            ==> values != [] && CanResolveTypes(server, all, w, types, severities, values)
  {
    assert QueryOf(w, []) == OneSecondQuery(w.start);
    if NoOverfullSecond(all) {
      OneSecondFits(all, w);
    }
  }
}
