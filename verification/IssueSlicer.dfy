/**
 * The issue slicer: fetches everything a project holds from a server that returns at
 * most 10,000 results per query, by bisecting creation dates and, inside one second,
 * by cascading through facets, and books every issue it could not fetch.
 */
module IssueSlicer {
  import opened Wrappers
  import opened PageSizes
  import opened RawClient
  import opened Windows
  import opened Depths
  import opened IssueServer
  import opened Facets
  import opened Reach
  import opened Coverage
  import opened SliceSteps
  import opened CellLabels
  import T = Truncation

  // ---------------------------------------------------------------------------
  // The slicer

  class Slicer {
    const server: Server
    const raw: Client
    const scope: T.Scope

    var tick: nat
    var pageSize: nat
    var pageLimit: int
    var ceiling: int
    var initialTotal: int
    var totalKnown: bool
    var seen: set<string>
    var unique: int
    var duplicates: nat
    var keyless: nat
    var windows: nat
    var requests: nat
    var expectedLoss: int
    var degradedReason: Option<T.TruncationReason>
    var fellBack: bool

    /** Every issue handed to the sink, in order. */
    var sunk: seq<Issue>
    /** Those the sink accepted. */
    ghost var kept: seq<Issue>
    /** What this walk gave the run's truncation tracker. */
    var records: seq<T.TruncationRecord>
    var audits: seq<T.Reconciliation>

    constructor (server: Server, raw: Client, scope: T.Scope)
      requires raw.Valid()
      ensures this.server == server && this.raw == raw && this.scope == scope
      ensures Kept(None) && unique == 0 && sunk == [] && records == [] && audits == [] && degradedReason.None?
      ensures expectedLoss == 0 && duplicates == 0 && tick == 0
    {
      this.server, this.raw, this.scope := server, raw, scope;
      tick, pageSize, pageLimit, ceiling := 0, 0, 0, 0;
      initialTotal, totalKnown := 0, false;
      seen, unique, duplicates, keyless := {}, 0, 0, 0;
      windows, requests, expectedLoss := 0, 0, 0;
      degradedReason, fellBack := None, false;
      sunk, kept, records, audits := [], [], [], [];
    }

    /** The books balance and every request is counted, whatever the server did. */
    ghost predicate Inv()
      reads this, raw
    {
      && raw.Valid() && requests == tick && kept <= sunk
      && unique == |sunk| && seen == KeysOf(sunk) && Windows.DistinctKeys(sunk) && keyless == KeylessIn(sunk)
      && expectedLoss == T.SumLost(records) && (forall r | r in records :: 0 <= r.lost && Mine(r))
      && degradedReason != Some(T.AtomicWindow)
      && (fellBack <==> degradedReason.Some?)
    }

    /** The record names this branch of this project, and what was given up about one second names that second. */
    predicate Mine(r: T.TruncationRecord) {
      && r.endpoint == "api/issues/search"
      && r.scope.task == scope.task && r.scope.projectKey == scope.projectKey && r.scope.branch == scope.branch
      && (r.reason == T.AtomicWindow ==>
            r.windowStart.Some? && r.windowEnd.Some? && r.windowEnd.value <= r.windowStart.value + 1)
    }

    /** The sink has everything, except for a batch whose refusal is this error. */
    ghost predicate Kept(err: Option<WalkError>)
      reads this, raw
    {
      Inv() && (kept == sunk <==> err != Some(SinkFailed))
    }

    ghost predicate Ready()
      reads this, raw
    {
      Kept(None) && ceiling == RESULT_WINDOW_LIMIT
    }

    ghost predicate After(err: Option<WalkError>)
      reads this, raw
    {
      Kept(err) && ceiling == RESULT_WINDOW_LIMIT
    }

    /** What was handed over and refused. */
    ghost function Refused(): (batch: seq<Issue>)
      requires kept <= sunk
      reads this
    {
      sunk[|kept|..]
    }

    /** Everything of the opening total is in the sink, or was in the refused batch, or is booked. */
    ghost predicate Booked()
      reads this
    {
      kept <= sunk && initialTotal <= |kept| + |Refused()| + expectedLoss
    }

    ghost function Books(): (books: Ledger)
      reads this
    {
      Ledger(seen, unique, duplicates, expectedLoss, sunk)
    }

    /** The collection is fixed, and nothing this query selects was handed over yet. */
    ghost predicate Pending(all: seq<Issue>, q: Query)
      reads this
    {
      Settled(server, all) && Untouched(Select(all, q), seen)
    }

    /** What was delivered or booked stays delivered or booked. */
    twostate predicate Grew()
      reads this
    {
      && old(records) <= records && old(sunk) <= sunk && old(kept) <= kept && old(tick) <= tick
      && initialTotal == old(initialTotal) && totalKnown == old(totalKnown) && audits == old(audits)
      && (old(degradedReason).Some? ==> degradedReason == old(degradedReason))
    }

    /** A degraded walk has handed over at least what the unsliced fetch returns. */
    ghost predicate FallbackKept(all: seq<Issue>)
      reads this
    {
      degradedReason.Some? && HonestPage(server, all, QueryOf(ROOT_WINDOW, [])) ==> AllHandedOver(FirstPart(all), sunk)
    }

    /** Unless the fallback itself failed. */
    twostate predicate KeepsFallback(all: seq<Issue>, new err: Option<WalkError>)
      reads this
    {
      old(FallbackKept(all)) && (err.None? || err.value.DateBoundRejected?) ==> FallbackKept(all)
    }

    twostate predicate DegradedByDepthOnly()
      reads this
    {
      degradedReason == old(degradedReason) || degradedReason == Some(T.MaxDepth)
    }

    // --- requests

    /** Takes in what one fetch reports. */
    method Adopt(res: PageResult<Issue>, ghost stop: bool)
      requires Kept(None) && Reports(res, IssueOpts(stop))
      modifies this`tick, this`requests, this`pageSize, this`pageLimit, this`ceiling
      ensures Ready() && tick == old(tick) + res.requests
    {
      CeilingSurvivesFallback(res, stop);
      tick := tick + res.requests;
      requests := requests + if res.requests < 1 then 1 else res.requests;
      if res.pageSize == 0 {
        return;
      }
      pageSize, pageLimit := res.pageSize, res.pageLimit;
      ceiling := WindowCeiling(res.pageLimit, res.pageSize);
    }

    /** The page size the next issue fetch starts with. */
    function FirstSize(): (size: nat)
      requires raw.Valid()
      reads this, raw
      ensures IsFallbackSize(size)
    {
      raw.Learned(ISSUES_PATH).SizeFor(ISSUE_PAGE_SIZE, server.now(tick))
    }

    /** One capped fetch of what a query selects. */
    method FetchQuery(q: Query, stop: bool, ghost all: seq<Issue>)
      returns (res: PageResult<Issue>, failure: Option<FetchError>)
      requires Kept(None)
      modifies raw, this`tick, this`requests, this`pageSize, this`pageLimit, this`ceiling
      ensures Ready() && tick == old(tick) + res.requests && Tidy(res)
      ensures failure.None? && HonestPage(server, all, q) ==> Brings(res, Select(all, q), stop)
      ensures NeverServes(WireOf(server, q), old(tick)) ==> failure.Some?
      ensures QueryAnswers(server, q) ==> failure.None?
      ensures var size := old(FirstSize());
              var reply := server.page(old(tick), q, 1, size);
              Decides(reply, IssueOpts(stop), size) ==> failure.None? && DecidedBy(res, reply) && res.requests == 1
    {
      if HonestPage(server, all, q) {
        HonestPageServes(server, all, q);
      }
      if QueryAnswers(server, q) {
        AnsweringIsSurvivable(server, q, tick, FirstSize());
      }
      ghost var asked, attempts;
      res, failure, asked, attempts := raw.GetPaginatedResult(WireOf(server, q), tick, IssueOpts(stop), Select(all, q));
      if failure.None? && HonestPage(server, all, q) {
        IssueFetchBrings(res, Select(all, q), stop);
      }
      Adopt(res, stop);
    }

    /** One capped fetch of a window, narrowed by facet filters when there are any. */
    method FetchWindow(w: IssueWindow, stop: bool, filters: seq<Filter>, ghost all: seq<Issue>)
      returns (res: PageResult<Issue>, err: Option<WalkError>)
      requires Kept(None)
      modifies raw, this`tick, this`requests, this`pageSize, this`pageLimit, this`ceiling
      ensures Kept(None) && old(tick) <= tick && err != Some(SinkFailed)
      ensures ceiling == RESULT_WINDOW_LIMIT || (!w.SafeToRequest() && ceiling == old(ceiling))
      ensures !w.SafeToRequest() ==> err == Some(ZeroWidth)
      ensures PagesAnswer(server) && w.SafeToRequest() ==> err.None?
      ensures err.Some? && err.value.DateBoundRejected? ==> w.Dated()
      ensures err.None? ==> Tidy(res)
      ensures err.None? && HonestPage(server, all, QueryOf(w, filters))
              ==> Brings(res, Select(all, QueryOf(w, filters)), stop)
    {
      res := PageResult([], 0, false, 0, 0, 0, 0, 0, false, None);
      if !w.SafeToRequest() {
        return res, Some(ZeroWidth);
      }
      var failure;
      res, failure := FetchQuery(QueryOf(w, filters), stop, all);
      err := if failure.Some? then Some(AsDateBoundRejection(w, failure.value)) else None;
    }

    /** The same for the whole project, with no bound and no filter. */
    method FetchRoot(ghost all: seq<Issue>) returns (res: PageResult<Issue>, err: Option<WalkError>)
      requires Kept(None)
      modifies raw, this`tick, this`requests, this`pageSize, this`pageLimit, this`ceiling
      ensures Ready() && old(tick) <= tick && Tidy(res)
      ensures err.Some? ==> !err.value.DateBoundRejected? && err != Some(SinkFailed)
      ensures err.None? && HonestPage(server, all, QueryOf(ROOT_WINDOW, [])) ==> res.items == FirstPart(all)
      ensures RefusesUndated(server, old(tick)) ==> err.Some?
      ensures QueryAnswers(server, QueryOf(ROOT_WINDOW, [])) ==> err.None?
    {
      RootSelectsAll(all, ROOT_WINDOW);
      var failure;
      res, failure := FetchQuery(QueryOf(ROOT_WINDOW, []), false, all);
      if failure.None? && HonestPage(server, all, QueryOf(ROOT_WINDOW, [])) {
        CappedFetchIsFirstPart(res, all);
      }
      err := if failure.Some? then Some(AsDateBoundRejection(ROOT_WINDOW, failure.value)) else None;
    }

    /** How many issues a window holds; an unreadable total is an error, never an empty window. */
    method ProbeWindowTotal(w: IssueWindow, ghost all: seq<Issue>) returns (total: nat, err: Option<WalkError>)
      requires Inv()
      modifies this`tick, this`requests
      ensures Inv() && Grew() && err != Some(SinkFailed) && tick == old(tick) + if w.SafeToRequest() then 1 else 0
      ensures err.None? <==> w.SafeToRequest() && ReportedTotal(server, old(tick), QueryOf(w, [])).Some?
      ensures err.None? ==> ReportedTotal(server, old(tick), QueryOf(w, [])) == Some(total)
      ensures err.None? && Settled(server, all) ==> total == |Select(all, QueryOf(w, []))|
      ensures Settled(server, all) && PagesAnswer(server) && w.SafeToRequest() ==> err.None?
      ensures var reply := server.page(old(tick), QueryOf(w, []), 1, 1);
              w.SafeToRequest() && reply.Failed? ==> err == Some(AsDateBoundRejection(w, reply.error))
    {
      if !w.SafeToRequest() {
        return 0, Some(ZeroWidth);
      }
      if Settled(server, all) {
        SettledPage(server, all, QueryOf(w, []));
        HonestPageServes(server, all, QueryOf(w, []));
        if PagesAnswer(server) {
          AnsweredPageReports(server, all, tick, QueryOf(w, []));
        }
        hide Settled, PagesAnswer;
      }
      var reply := server.page(tick, QueryOf(w, []), 1, 1);
      tick, requests := tick + 1, requests + 1;
      match reply
      case Failed(e) => return 0, Some(AsDateBoundRejection(w, e));
      case Page(_, total) =>
        if total.None? {
          return 0, Some(NoTotal);
        }
        return total.value, None;
    }

    /** The creation second of the first issue of a window, oldest or newest first. */
    method ProbeCreationDate(w: IssueWindow, oldest: bool) returns (second: Option<int>)
      requires Inv()
      modifies this`tick, this`requests
      ensures Inv() && Grew() && tick == old(tick) + 1
      ensures second == server.created(old(tick), QueryOf(w, []), oldest)
    {
      second := server.created(tick, QueryOf(w, []), oldest);
      tick, requests := tick + 1, requests + 1;
    }

    method ProbeFacet(w: IssueWindow, f: Facet, filters: seq<Filter>, ghost all: seq<Issue>)
      returns (values: seq<FacetValue>, err: Option<WalkError>)
      requires Inv()
      modifies this`tick, this`requests
      ensures Inv() && Grew()
      ensures forall v | v in values :: 0 < v.count
      ensures err.None? && Settled(server, all) ==>
                var q := QueryOf(w, filters);
                ExactBuckets(all, q, f, values) &&
                (IsTaxonomyFacet(f) && values != [] ==> SumCounts(values) == |Select(all, q)|)
      ensures var q := QueryOf(w, filters);
              w.SafeToRequest() && Settled(server, all) && FacetsAnswer(server, all) && Partitions(all, q, f)
              ==> err.None? && AllBuckets(all, q, f, values)
    {
      hide T.SumLost, KeysOf, Windows.DistinctKeys, KeylessIn, Mine;
      if !w.SafeToRequest() {
        return [], Some(ZeroWidth);
      }
      var q := QueryOf(w, filters);
      FacetReplyIsRight(server, all, q, f, tick);
      hide Settled, FacetsAnswer, Partitions, AllBuckets, ExactBuckets, SumCounts;
      var reply := server.facet(tick, q, f);
      tick, requests := tick + 1, requests + 1;
      match reply
      case FacetFailed(e) => return [], Some(AsDateBoundRejection(w, e));
      case Buckets(buckets) => return NonZero(buckets), None;
    }

    // --- absorbing and booking

    /** Dedups one window's items and hands the new ones to the sink. */
    method Absorb(items: seq<Issue>) returns (err: Option<WalkError>)
      requires Kept(None)
      modifies this`seen, this`unique, this`duplicates, this`keyless, this`sunk, this`kept
      ensures Kept(err) && Grew()
      ensures Books() == AbsorbInto(old(Books()), items)
      ensures err.None? || err == Some(SinkFailed)
      ensures (forall at: nat :: !server.sinkFails(at)) ==> err.None?
    {
      SiftAccountsForEveryItem(items, sunk);
      var passed := Dedup(items);
      err := HandOver(passed);
    }

    /** Hands new items to the sink. */
    method HandOver(passed: seq<Issue>) returns (err: Option<WalkError>)
      requires kept == sunk
      modifies this`unique, this`sunk, this`kept
      ensures unique == old(unique) + |passed| && sunk == old(sunk) + passed
      ensures old(kept) <= kept <= sunk && (kept == sunk <==> err.None?)
      ensures err == if passed != [] && server.sinkFails(tick) then Some(SinkFailed) else None
    {
      unique, sunk := unique + |passed|, sunk + passed;
      err := if passed != [] && server.sinkFails(tick) then Some(SinkFailed) else None;
      if err.None? {
        kept := sunk;
      }
    }

    /** Absorbs the items of one more window. */
    method AbsorbWindow(items: seq<Issue>) returns (err: Option<WalkError>)
      requires Kept(None)
      modifies this`windows, this`seen, this`unique, this`duplicates, this`keyless, this`sunk, this`kept
      ensures Kept(err) && Grew() && windows == old(windows) + 1
      ensures Books() == AbsorbInto(old(Books()), items)
      ensures err.None? || err == Some(SinkFailed)
      ensures (forall at: nat :: !server.sinkFails(at)) ==> err.None?
    {
      windows := windows + 1;
      err := Absorb(items);
    }

    method Dedup(items: seq<Issue>) returns (passed: seq<Issue>)
      modifies this`seen, this`duplicates, this`keyless
      ensures var s := Sift(items, old(seen));
              passed == s.passed && seen == s.seen && duplicates == old(duplicates) + s.duplicates
              && keyless == old(keyless) + s.keyless
    {
      passed := [];
      for k := 0 to |items|
        invariant var s := Sift(items[..k], old(seen));
                  passed == s.passed && seen == s.seen && duplicates == old(duplicates) + s.duplicates
                  && keyless == old(keyless) + s.keyless
      {
        assert items[..k + 1][..k] == items[..k];
        var i := items[k];
        if i.key == "" {
          keyless := keyless + 1;
          passed := passed + [i];
        } else if i.key in seen {
          duplicates := duplicates + 1;
        } else {
          seen := seen + {i.key};
          passed := passed + [i];
        }
      }
      assert items[..|items|] == items;
    }

    method Record(rec: T.TruncationRecord)
      requires Inv() && 0 <= rec.lost && Mine(rec)
      modifies this`expectedLoss, this`records
      ensures Inv() && Grew()
      ensures records == old(records) + [rec]
      ensures Books() == Book(old(Books()), rec.lost)
    {
      hide T.SumLost, Mine;
      T.SumLostAppend(records, rec);
      assert forall r | r in records + [rec] :: r in records || r == rec;
      expectedLoss := expectedLoss + rec.lost;
      records := records + [rec];
    }

    function Shortfall(reason: T.TruncationReason, lost: int): (rec: T.TruncationRecord)
      requires 0 <= unique
      reads this`initialTotal, this`totalKnown, this`unique, this`pageSize, this`pageLimit
    {
      T.TruncationRecord(ISSUES_PATH, reason, scope, initialTotal, totalKnown, unique, lost, pageSize, pageLimit,
                         None, None)
    }

    // --- facets

    /** Fetches a cell and absorbs it only when it came back complete. */
    method FetchAndAbsorbCell(w: IssueWindow, stop: bool, filters: seq<Filter>, ghost all: seq<Issue>)
      returns (res: PageResult<Issue>, err: Option<WalkError>)
      requires Ready()
      modifies raw, this`tick, this`requests, this`pageSize, this`pageLimit, this`ceiling
      modifies this`windows, this`seen, this`unique, this`duplicates, this`keyless, this`sunk, this`kept
      ensures After(err) && Grew() && records == old(records) && degradedReason == old(degradedReason)
      ensures err.None? ==> Tidy(res) && windows == old(windows) + if res.truncated then 0 else 1
      ensures err.None? ==> Books() == if res.truncated then old(Books()) else AbsorbInto(old(Books()), res.items)
      ensures err.None? && HonestPage(server, all, QueryOf(w, filters))
              ==> Brings(res, Select(all, QueryOf(w, filters)), stop)
      ensures Unfailing(server) && w.SafeToRequest() ==> err.None?
    {
      hide T.SumLost, KeysOf, Windows.DistinctKeys, KeylessIn, Mine;
      res, err := FetchWindow(w, stop, filters, all);
      if err.Some? || res.truncated {
        return;
      }
      err := AbsorbWindow(res.items);
    }

    /** Keeps what a give-up fetch returned and records the rest of `total` as lost. */
    method RecordGiveUp(w: IssueWindow, total: nat, detail: string, res: PageResult<Issue>)
      returns (err: Option<WalkError>)
      requires Ready() && IsLeaf(w)
      modifies this`windows, this`seen, this`unique, this`duplicates, this`keyless, this`sunk, this`kept
      modifies this`expectedLoss, this`records
      ensures After(err) && Grew() && degradedReason == old(degradedReason)
      ensures err.None? ==> RecordsGiveUp(w, total, detail, res, old(records))
      ensures err.None? ==>
                var kept := if res.truncated then AbsorbInto(old(Books()), res.items) else old(Books());
                && Books() == Book(kept, T.Max(0, total - res.fetched))
                && windows == old(windows) + if res.truncated then 1 else 0
      ensures Unfailing(server) ==> err.None?
    {
      if res.truncated {
        err := AbsorbWindow(res.items);
        if err.Some? {
          return;
        }
      }
      BookGiveUp(w, total, detail, res);
      return None;
    }

    /** One more record, of exactly what giving up on a cell of this second left behind. */
    ghost predicate RecordsGiveUp(w: IssueWindow, total: nat, detail: string, res: PageResult<Issue>,
                           before: seq<T.TruncationRecord>)
      reads this`records
    {
      && |records| == |before| + 1 && before <= records
      && var r := records[|before|];
         && r.endpoint == ISSUES_PATH && r.reason == T.AtomicWindow && r.scope == scope.(detail := detail)
         && r.total == total && r.totalKnown && r.fetched == res.fetched
         && r.lost == (if res.fetched < total then total - res.fetched else 0)
         && r.pageSize == res.pageSize && r.pageLimit == res.pageLimit
         && r.windowStart == Some(w.start) && r.windowEnd == Some(w.end)
    }

    method BookGiveUp(w: IssueWindow, total: nat, detail: string, res: PageResult<Issue>)
      requires Ready() && IsLeaf(w)
      modifies this`expectedLoss, this`records
      ensures Ready() && Grew() && degradedReason == old(degradedReason)
      ensures Books() == Book(old(Books()), T.Max(0, total - res.fetched))
      ensures RecordsGiveUp(w, total, detail, res, old(records))
    {
      var lost := if total < res.fetched then 0 else total - res.fetched;
      Record(T.TruncationRecord(ISSUES_PATH, T.AtomicWindow, scope.(detail := detail), total, true, res.fetched, lost,
                                res.pageSize, res.pageLimit, w.After(), w.Before()));
    }

    method GiveUpOnWindow(w: IssueWindow, total: nat, filters: seq<Filter>, ghost all: seq<Issue>)
      returns (err: Option<WalkError>)
      requires Ready() && IsLeaf(w)
      modifies raw, this`tick, this`requests, this`pageSize, this`pageLimit, this`ceiling
      modifies this`windows, this`seen, this`unique, this`duplicates, this`keyless, this`sunk, this`kept
      modifies this`expectedLoss, this`records
      ensures After(err) && Grew() && degradedReason == old(degradedReason)
      ensures err.None? ==> exists res :: RecordsGiveUp(w, total, CellLabel(filters), res, old(records))
      ensures err.None? && old(Pending(all, QueryOf(w, filters))) && total == |Select(all, QueryOf(w, filters))|
              ==> Covered(Select(all, QueryOf(w, filters)), old(Books()), Books())
      ensures Unfailing(server) && w.SafeToRequest() ==> err.None?
    {
      ghost var q, before := QueryOf(w, filters), Books();
      ghost var pending := Pending(all, q) && total == |Select(all, q)|;
      var res;
      res, err := FetchAndAbsorbCell(w, false, filters, all);
      if err.Some? {
        return;
      }
      if pending {
        SettledPage(server, all, q);
        SelectKeepsKeysDistinct(all, q);
        AbsorbedPrefixCovers(Select(all, q), res.items, before);
      }
      err := RecordGiveUp(w, total, CellLabel(filters), res);
    }

    /** Fetches a cell the probe said would fit; falls back to finer facets, or gives up, when it does not. */
    method FetchCellOrError(w: IssueWindow, cellTotal: nat, remaining: seq<Facet>, filters: seq<Filter>,
                            ghost all: seq<Issue>)
      returns (err: Option<WalkError>)
      requires Ready() && IsLeaf(w)
      modifies raw, this`tick, this`requests, this`pageSize, this`pageLimit, this`ceiling
      modifies this`windows, this`seen, this`unique, this`duplicates, this`keyless, this`sunk, this`kept
      modifies this`expectedLoss, this`records
      ensures After(err) && Grew() && degradedReason == old(degradedReason)
      ensures err.None? && old(Pending(all, QueryOf(w, filters)))
              ==> Covered(Select(all, QueryOf(w, filters)), old(Books()), Books())
      ensures Unfailing(server) && w.SafeToRequest() ==> err.None?
      ensures err.None? && old(Pending(all, QueryOf(w, filters))) && CanResolve(server, all, w, filters, remaining)
              ==> records == old(records)
      decreases |remaining|, 1
    {
      hide T.SumLost, KeysOf, Windows.DistinctKeys, KeylessIn, Mine;
      ghost var q, before := QueryOf(w, filters), Books();
      ghost var pending := Pending(all, q);
      var finer := 0 < |remaining|;
      var res;
      res, err := FetchAndAbsorbCell(w, finer, filters, all);
      if pending && err.None? {
        SettledPage(server, all, q);
        SelectKeepsKeysDistinct(all, q);
        AbsorbedPrefixCovers(Select(all, q), res.items, before);
      }
      if err.Some? || !res.truncated {
        return;
      }
      var total := if res.totalKnown then res.total else cellTotal;
      if !finer {
        err := RecordGiveUp(w, total, CellLabel(filters), res);
        return;
      }
      err := FetchByRemainingFacets(w, total, remaining, filters, all);
    }

    /** Partitions a cell by the next facet of the cascade. */
    method FetchByRemainingFacets(w: IssueWindow, cellTotal: nat, order: seq<Facet>, filters: seq<Filter>,
                                  ghost all: seq<Issue>)
      returns (err: Option<WalkError>)
      requires Ready() && IsLeaf(w)
      modifies raw, this`tick, this`requests, this`pageSize, this`pageLimit, this`ceiling
      modifies this`windows, this`seen, this`unique, this`duplicates, this`keyless, this`sunk, this`kept
      modifies this`expectedLoss, this`records
      ensures After(err) && Grew() && degradedReason == old(degradedReason)
      ensures err.None? && old(Pending(all, QueryOf(w, filters))) && cellTotal == |Select(all, QueryOf(w, filters))|
              ==> Covered(Select(all, QueryOf(w, filters)), old(Books()), Books())
      ensures Unfailing(server) && w.SafeToRequest() ==> err.None?
      ensures err.None? && old(Pending(all, QueryOf(w, filters)))
              && RESULT_WINDOW_LIMIT < cellTotal == |Select(all, QueryOf(w, filters))|
              && CanResolve(server, all, w, filters, order)
              ==> records == old(records)
      decreases |order|, 0
    {
      hide T.SumLost, KeysOf, Windows.DistinctKeys, KeylessIn, Mine;
      if order == [] {
        err := GiveUpOnWindow(w, cellTotal, filters, all);
        return;
      }
      hide Resolves, Partitions, CanResolve, CanResolveCells, AllBuckets, ExactBuckets, Settled, HonestPage;
      var facet, rest := order[0], order[1..];
      var values;
      values, err := ProbeFacet(w, facet, filters, all);
      var covers := FacetCoversCell(values, cellTotal);
      if CanResolve(server, all, w, filters, order) && RESULT_WINDOW_LIMIT < |Select(all, QueryOf(w, filters))| {
        ResolvesByNext(server, all, w, filters, order, values);
      }
      if err.Some? || |values| == 0 || MAX_FACET_VALUES < |values| || !covers {
        err := GiveUpOnWindow(w, cellTotal, filters, all);
        return;
      }
      err := PartitionCell(w, facet, values, rest, filters, all);
    }

    /** Fetches a cell by buckets that account for all of it. */
    method PartitionCell(w: IssueWindow, facet: Facet, values: seq<FacetValue>, rest: seq<Facet>, filters: seq<Filter>,
                         ghost all: seq<Issue>)
      returns (err: Option<WalkError>)
      requires Ready() && IsLeaf(w)
      modifies raw, this`tick, this`requests, this`pageSize, this`pageLimit, this`ceiling
      modifies this`windows, this`seen, this`unique, this`duplicates, this`keyless, this`sunk, this`kept
      modifies this`expectedLoss, this`records
      ensures After(err) && Grew() && degradedReason == old(degradedReason)
      ensures var q := QueryOf(w, filters);
              err.None? && old(Pending(all, q)) && ExactBuckets(all, q, facet, values)
              && |Select(all, q)| <= SumCounts(values)
              ==> Covered(Select(all, q), old(Books()), Books())
      ensures Unfailing(server) && w.SafeToRequest() ==> err.None?
      ensures err.None? && old(Pending(all, QueryOf(w, filters)))
              && ExactBuckets(all, QueryOf(w, filters), facet, values)
              && CanResolveCells(server, all, w, filters, facet, values, rest)
              ==> records == old(records)
      decreases |rest|, 5
    {
      ghost var q, before := QueryOf(w, filters), Books();
      ghost var pending := Pending(all, q) && ExactBuckets(all, q, facet, values)
                           && |Select(all, q)| <= SumCounts(values);
      err := FetchCells(w, facet, values, rest, filters, all);
      if pending && err.None? {
        AllCellsCovered(all, q, facet, values, before, Books());
      }
    }

    method FetchOrSplitCell(w: IssueWindow, count: nat, rest: seq<Facet>, filters: seq<Filter>, ghost all: seq<Issue>)
      returns (err: Option<WalkError>)
      requires Ready() && IsLeaf(w)
      modifies raw, this`tick, this`requests, this`pageSize, this`pageLimit, this`ceiling
      modifies this`windows, this`seen, this`unique, this`duplicates, this`keyless, this`sunk, this`kept
      modifies this`expectedLoss, this`records
      ensures After(err) && Grew() && degradedReason == old(degradedReason)
      ensures err.None? && old(Pending(all, QueryOf(w, filters))) && count == |Select(all, QueryOf(w, filters))|
              ==> Covered(Select(all, QueryOf(w, filters)), old(Books()), Books())
      ensures Unfailing(server) && w.SafeToRequest() ==> err.None?
      ensures err.None? && old(Pending(all, QueryOf(w, filters))) && count == |Select(all, QueryOf(w, filters))|
              && CanResolve(server, all, w, filters, rest)
              ==> records == old(records)
      decreases |rest|, 2
    {
      if count <= ceiling {
        err := FetchCellOrError(w, count, rest, filters, all);
      } else {
        err := FetchByRemainingFacets(w, count, rest, filters, all);
      }
    }

    /** The cells of the first `k` facet values are covered since `before`, and the rest is still pending. */
    ghost predicate CellsCovered(all: seq<Issue>, q: Query, facet: Facet, values: seq<FacetValue>, k: nat,
                                 before: Ledger)
      requires k <= |values|
      reads this
    {
      && Settled(server, all) && ExactBuckets(all, q, facet, values)
      && Untouched(Select(all, q), before.seen)
      && Covered(Cells(all, q, facet, values[..k]), before, Books())
    }

    /** Fetches the cells of a facet one after another, splitting those over the ceiling further. */
    method FetchCells(w: IssueWindow, facet: Facet, values: seq<FacetValue>, rest: seq<Facet>, filters: seq<Filter>,
                      ghost all: seq<Issue>)
      returns (err: Option<WalkError>)
      requires Ready() && IsLeaf(w)
      modifies raw, this`tick, this`requests, this`pageSize, this`pageLimit, this`ceiling
      modifies this`windows, this`seen, this`unique, this`duplicates, this`keyless, this`sunk, this`kept
      modifies this`expectedLoss, this`records
      ensures After(err) && Grew() && degradedReason == old(degradedReason)
      ensures var q := QueryOf(w, filters);
              err.None? && old(Pending(all, q)) && ExactBuckets(all, q, facet, values)
              ==> Covered(Cells(all, q, facet, values), old(Books()), Books())
      ensures Unfailing(server) && w.SafeToRequest() ==> err.None?
      ensures err.None? && old(Pending(all, QueryOf(w, filters)))
              && ExactBuckets(all, QueryOf(w, filters), facet, values)
              && CanResolveCells(server, all, w, filters, facet, values, rest)
              ==> records == old(records)
      decreases |rest|, 4
    {
      ghost var q, before := QueryOf(w, filters), Books();
      ghost var pending := Pending(all, q) && ExactBuckets(all, q, facet, values);
      CoveredNothing(before);
      err := None;
      for k := 0 to |values|
        invariant Ready() && Grew() && degradedReason == old(degradedReason) && err.None?
        invariant pending ==> CellsCovered(all, q, facet, values, k, before)
        invariant pending && CanResolveCells(server, all, w, filters, facet, values, rest) ==> records == old(records)
      {
        err := FetchNextCell(w, facet, values, k, rest, filters, all, before);
        if err.Some? {
          return;
        }
      }
      assert values[..|values|] == values;
    }

    method FetchNextCell(w: IssueWindow, facet: Facet, values: seq<FacetValue>, k: nat, rest: seq<Facet>,
                         filters: seq<Filter>, ghost all: seq<Issue>, ghost before: Ledger)
      returns (err: Option<WalkError>)
      requires Ready() && IsLeaf(w) && k < |values|
      modifies raw, this`tick, this`requests, this`pageSize, this`pageLimit, this`ceiling
      modifies this`windows, this`seen, this`unique, this`duplicates, this`keyless, this`sunk, this`kept
      modifies this`expectedLoss, this`records
      ensures After(err) && Grew() && degradedReason == old(degradedReason)
      ensures var q := QueryOf(w, filters);
              err.None? && old(CellsCovered(all, q, facet, values, k, before))
              ==> CellsCovered(all, q, facet, values, k + 1, before)
      ensures Unfailing(server) && w.SafeToRequest() ==> err.None?
      ensures err.None? && old(CellsCovered(all, QueryOf(w, filters), facet, values, k, before))
              && CanResolveCells(server, all, w, filters, facet, values, rest)
              ==> records == old(records)
      decreases |rest|, 3
    {
      ghost var q, mid := QueryOf(w, filters), Books();
      ghost var covered := CellsCovered(all, q, facet, values, k, before);
      CellIsFilteredQuery(w, filters, facet, values[k].val);
      if covered {
        NextCellIsUntouched(all, q, facet, values, k, before, mid);
      }
      err := FetchOrSplitCell(w, values[k].count, rest, filters + [(facet, values[k].val)], all);
      if covered && err.None? {
        NextCellCovered(all, q, facet, values, k, before, mid, Books());
      }
    }

    /** One type: its severities, each fetched or split further. */
    method FetchTypeCell(w: IssueWindow, typeFacet: Facet, severityFacet: Facet, t: FacetValue, ghost all: seq<Issue>)
      returns (err: Option<WalkError>)
      requires Ready() && IsLeaf(w) && IsTaxonomyFacet(severityFacet)
      modifies raw, this`tick, this`requests, this`pageSize, this`pageLimit, this`ceiling
      modifies this`windows, this`seen, this`unique, this`duplicates, this`keyless, this`sunk, this`kept
      modifies this`expectedLoss, this`records
      ensures After(err) && Grew() && degradedReason == old(degradedReason)
      ensures var q := QueryOf(w, [(typeFacet, t.val)]);
              err.None? && old(Pending(all, q)) && t.count == |Select(all, q)|
              ==> Covered(Select(all, q), old(Books()), Books())
      ensures Unfailing(server) && w.SafeToRequest() ==> err.None?
      ensures var q := QueryOf(w, [(typeFacet, t.val)]);
              err.None? && old(Pending(all, q)) && 0 < t.count == |Select(all, q)|
              && FacetsAnswer(server, all) && w.SafeToRequest() && TypeResolves(all, q, severityFacet)
              ==> records == old(records)
    {
      hide T.SumLost, KeysOf, Windows.DistinctKeys, KeylessIn, Mine;
      var filters := [(typeFacet, t.val)];
      var severities;
      severities, err := ProbeFacet(w, severityFacet, filters, all);
      if err.Some? || |severities| == 0 {
        err := GiveUpOnWindow(w, t.count, filters, all);
        return;
      }
      err := PartitionCell(w, severityFacet, severities, FACET_CASCADE_ORDER, filters, all);
    }

    /** A closed one-second window over the ceiling: types, then severities, then the cascade. */
    method FetchByFacets(w: IssueWindow, total: nat, ghost all: seq<Issue>) returns (err: Option<WalkError>)
      requires Ready() && IsLeaf(w)
      modifies raw, this`tick, this`requests, this`pageSize, this`pageLimit, this`ceiling
      modifies this`windows, this`seen, this`unique, this`duplicates, this`keyless, this`sunk, this`kept
      modifies this`expectedLoss, this`records
      ensures After(err) && Grew() && degradedReason == old(degradedReason)
      ensures var q := QueryOf(w, []);
              err.None? && old(Pending(all, q)) && total == |Select(all, q)|
              ==> Covered(Select(all, q), old(Books()), Books())
      ensures Unfailing(server) && w.SafeToRequest() ==> err.None?
      ensures err.None? && old(Pending(all, QueryOf(w, []))) && total == |Select(all, QueryOf(w, []))|
              && Recoverable(server, all) && IsOverfullSecond(all, w)
              ==> && records == old(records)
                  && multiset(sunk) == multiset(old(sunk)) + multiset(Select(all, QueryOf(w, [])))
    {
      var typeFacet, severityFacet := if server.mqr then ImpactSoftwareQualities else Types,
                                      if server.mqr then ImpactSeverities else Severities;
      hide Recoverable, IsOverfullSecond, Partitions, CanResolveTypes, AllBuckets, ExactBuckets, SumCounts;
      hide Settled, HonestPage, Covered;
      var types;
      types, err := ProbeFacet(w, typeFacet, [], all);
      if Recoverable(server, all) && IsOverfullSecond(all, w) {
        OverfullSecondResolves(server, all, w, typeFacet, severityFacet, types);
      }
      if err.Some? || |types| == 0 {
        err := GiveUpOnWindow(w, total, [], all);
        return;
      }
      err := PartitionByTypes(w, typeFacet, severityFacet, types, all);
    }

    /** Fetches an overfull second by types that account for all of it. */
    method PartitionByTypes(w: IssueWindow, typeFacet: Facet, severityFacet: Facet, types: seq<FacetValue>,
                            ghost all: seq<Issue>)
      returns (err: Option<WalkError>)
      requires Ready() && IsLeaf(w) && IsTaxonomyFacet(severityFacet) && (forall v | v in types :: 0 < v.count)
      modifies raw, this`tick, this`requests, this`pageSize, this`pageLimit, this`ceiling
      modifies this`windows, this`seen, this`unique, this`duplicates, this`keyless, this`sunk, this`kept
      modifies this`expectedLoss, this`records
      ensures After(err) && Grew() && degradedReason == old(degradedReason)
      ensures Unfailing(server) && w.SafeToRequest() ==> err.None?
      ensures var s := Select(all, QueryOf(w, []));
              err.None? && old(Pending(all, QueryOf(w, []))) && ExactBuckets(all, QueryOf(w, []), typeFacet, types)
              && |s| <= SumCounts(types)
              ==> && Covered(s, old(Books()), Books())
                  && (CanResolveTypes(server, all, w, typeFacet, severityFacet, types)
                      ==> records == old(records) && multiset(sunk) == multiset(old(sunk)) + multiset(s))
    {
      ghost var q, before := QueryOf(w, []), Books();
      ghost var pending := Pending(all, q) && ExactBuckets(all, q, typeFacet, types)
                           && |Select(all, q)| <= SumCounts(types);
      assert pending ==> SingleValued(all);
      hide Settled, ExactBuckets, SumCounts, Covered, CanResolveTypes;
      err := FetchTypeCells(w, typeFacet, severityFacet, types, all);
      if pending && err.None? {
        AllCellsHandedOver(all, q, typeFacet, types, before, Books());
      }
    }

    method FetchTypeCells(w: IssueWindow, typeFacet: Facet, severityFacet: Facet, types: seq<FacetValue>,
                          ghost all: seq<Issue>)
      returns (err: Option<WalkError>)
      requires Ready() && IsLeaf(w) && IsTaxonomyFacet(severityFacet) && (forall v | v in types :: 0 < v.count)
      modifies raw, this`tick, this`requests, this`pageSize, this`pageLimit, this`ceiling
      modifies this`windows, this`seen, this`unique, this`duplicates, this`keyless, this`sunk, this`kept
      modifies this`expectedLoss, this`records
      ensures After(err) && Grew() && degradedReason == old(degradedReason)
      ensures var q := QueryOf(w, []);
              err.None? && old(Pending(all, q)) && ExactBuckets(all, q, typeFacet, types)
              ==> Covered(Cells(all, q, typeFacet, types), old(Books()), Books())
      ensures Unfailing(server) && w.SafeToRequest() ==> err.None?
      ensures err.None? && old(Pending(all, QueryOf(w, []))) && ExactBuckets(all, QueryOf(w, []), typeFacet, types)
              && CanResolveTypes(server, all, w, typeFacet, severityFacet, types)
              ==> records == old(records)
    {
      ghost var q, before := QueryOf(w, []), Books();
      ghost var pending := Pending(all, q) && ExactBuckets(all, q, typeFacet, types);
      CoveredNothing(before);
      err := None;
      for k := 0 to |types|
        invariant Ready() && Grew() && degradedReason == old(degradedReason) && err.None?
        invariant pending ==> CellsCovered(all, q, typeFacet, types, k, before)
        invariant pending && CanResolveTypes(server, all, w, typeFacet, severityFacet, types)
                  ==> records == old(records)
      {
        err := FetchNextType(w, typeFacet, severityFacet, types, k, all, before);
        if err.Some? {
          return;
        }
      }
      assert types[..|types|] == types;
    }

    method FetchNextType(w: IssueWindow, typeFacet: Facet, severityFacet: Facet, types: seq<FacetValue>, k: nat,
                         ghost all: seq<Issue>, ghost before: Ledger)
      returns (err: Option<WalkError>)
      requires Ready() && IsLeaf(w) && IsTaxonomyFacet(severityFacet) && k < |types|
      modifies raw, this`tick, this`requests, this`pageSize, this`pageLimit, this`ceiling
      modifies this`windows, this`seen, this`unique, this`duplicates, this`keyless, this`sunk, this`kept
      modifies this`expectedLoss, this`records
      ensures After(err) && Grew() && degradedReason == old(degradedReason)
      ensures var q := QueryOf(w, []);
              err.None? && old(CellsCovered(all, q, typeFacet, types, k, before))
              ==> CellsCovered(all, q, typeFacet, types, k + 1, before)
      ensures Unfailing(server) && w.SafeToRequest() ==> err.None?
      ensures err.None? && old(CellsCovered(all, QueryOf(w, []), typeFacet, types, k, before)) && 0 < types[k].count
              && CanResolveTypes(server, all, w, typeFacet, severityFacet, types)
              ==> records == old(records)
    {
      ghost var q, mid := QueryOf(w, []), Books();
      ghost var covered := CellsCovered(all, q, typeFacet, types, k, before);
      TypeCellIsFilteredQuery(w, typeFacet, types[k].val);
      if covered {
        NextCellIsUntouched(all, q, typeFacet, types, k, before, mid);
      }
      err := FetchTypeCell(w, typeFacet, severityFacet, types[k], all);
      if covered && err.None? {
        NextCellCovered(all, q, typeFacet, types, k, before, mid, Books());
      }
    }

    // --- windows

    /** Reads a window the probe said would fit, and books what it grew by meanwhile. */
    method FetchWindowItems(w: IssueWindow, ghost probed: nat, ghost all: seq<Issue>) returns (err: Option<WalkError>)
      requires Ready()
      modifies raw, this`tick, this`requests, this`pageSize, this`pageLimit, this`ceiling
      modifies this`windows, this`seen, this`unique, this`duplicates, this`keyless, this`sunk, this`kept
      modifies this`expectedLoss, this`records
      ensures After(err) && Grew() && degradedReason == old(degradedReason)
      ensures var s := Select(all, QueryOf(w, []));
              err.None? && old(Pending(all, QueryOf(w, []))) && probed == |s| <= RESULT_WINDOW_LIMIT
              ==> Covered(s, old(Books()), Books()) && |records| == |old(records)|
      ensures Unfailing(server) && w.SafeToRequest() ==> err.None?
    {
      hide T.SumLost, KeysOf, Windows.DistinctKeys, KeylessIn, Mine;
      ghost var q, before := QueryOf(w, []), Books();
      ghost var pending := Pending(all, q) && probed == |Select(all, q)| <= RESULT_WINDOW_LIMIT;
      var res;
      res, err := FetchWindow(w, false, [], all);
      if err.Some? {
        return;
      }
      if pending {
        SettledPage(server, all, q);
        FittingFetchCovers(res, all, q, before);
      }
      err := KeepWindow(w, res);
    }

    method KeepWindow(w: IssueWindow, res: PageResult<Issue>) returns (err: Option<WalkError>)
      requires Ready() && (res.truncated <==> res.reason.Some?)
      modifies this`windows, this`seen, this`unique, this`duplicates, this`keyless, this`sunk, this`kept
      modifies this`expectedLoss, this`records
      ensures After(err) && Grew() && windows == old(windows) + 1
      ensures err.None? && !res.truncated ==> Books() == AbsorbInto(old(Books()), res.items) && records == old(records)
      ensures err.None? && res.truncated ==> Books() == Book(AbsorbInto(old(Books()), res.items), Growth(res))
      ensures Unfailing(server) ==> err.None?
    {
      err := AbsorbWindow(res.items);
      if err.None? && res.truncated {
        BookGrowth(w, res);
      }
    }

    /** What a window holds beyond what was fetched of it. */
    function Growth(res: PageResult<Issue>): (lost: int) {
      if res.totalKnown then T.Max(0, res.total - res.fetched) else 0
    }

    method BookGrowth(w: IssueWindow, res: PageResult<Issue>)
      requires Ready() && res.reason.Some?
      modifies this`expectedLoss, this`records
      ensures Ready() && Grew() && degradedReason == old(degradedReason)
      ensures Books() == Book(old(Books()), Growth(res))
      ensures records == old(records) + [T.TruncationRecord(
                ISSUES_PATH, if res.reason == Some(PageLimitClamp) then T.PageLimitClamp else T.UnknownTotal, scope,
                res.total, res.totalKnown, res.fetched, Growth(res), res.pageSize, res.pageLimit,
                if w.openStart then None else Some(w.start), if w.openEnd then None else Some(w.end))]
    {
      var lost := if res.totalKnown && res.fetched < res.total then res.total - res.fetched else 0;
      Record(T.TruncationRecord(ISSUES_PATH, ReasonOf(res.reason.value), scope, res.total, res.totalKnown,
                                res.fetched, lost, res.pageSize, res.pageLimit, w.After(), w.Before()));
    }

    /** The fallback to the capped, undated fetch; at most once per walk. */
    method Degrade(reason: T.TruncationReason, ghost all: seq<Issue>) returns (err: Option<WalkError>)
      requires Kept(None) && reason != T.AtomicWindow
      modifies this, raw
      ensures Kept(err) && Grew() && (old(Ready()) ==> After(err))
      ensures degradedReason == if old(degradedReason).Some? then old(degradedReason) else Some(reason)
      ensures records == old(records)
      ensures old(degradedReason).Some? ==> err.None? && Books() == old(Books()) && requests == old(requests)
      ensures err.None? && old(degradedReason).None? && HonestPage(server, all, QueryOf(ROOT_WINDOW, []))
              ==> Books() == AbsorbInto(old(Books()), FirstPart(all))
      ensures old(degradedReason).None? && RefusesUndated(server, old(tick)) ==> err.Some? && Books() == old(Books())
      ensures KeepsFallback(all, err)
      ensures RootServed(server) ==> err.None?
    {
      if degradedReason.None? {
        degradedReason := Some(reason);
      }
      if fellBack {
        return None;
      }
      fellBack := true;
      AbsorbedIsHandedOver(FirstPart(all), sunk);
      err := FetchUndated(all);
    }

    /** The capped fetch of the whole project, with no date bounds. */
    method FetchUndated(ghost all: seq<Issue>) returns (err: Option<WalkError>)
      requires Kept(None)
      modifies raw, this`tick, this`requests, this`pageSize, this`pageLimit, this`ceiling
      modifies this`windows, this`seen, this`unique, this`duplicates, this`keyless, this`sunk, this`kept
      ensures Kept(err) && Grew() && (old(Ready()) ==> After(err))
      ensures degradedReason == old(degradedReason) && records == old(records)
      ensures err.None? ==> windows == old(windows) + 1
      ensures err.None? && HonestPage(server, all, QueryOf(ROOT_WINDOW, []))
              ==> Books() == AbsorbInto(old(Books()), FirstPart(all))
      ensures RefusesUndated(server, old(tick)) ==> err.Some? && Books() == old(Books())
      ensures err.Some? ==> !err.value.DateBoundRejected?
      ensures RootServed(server) ==> err.None?
    {
      hide T.SumLost, KeysOf, Windows.DistinctKeys, KeylessIn, Mine;
      var res;
      res, err := FetchRoot(all);
      if err.None? {
        err := AbsorbWindow(res.items);
      }
    }

    /** Whether an open edge selects anything beyond its arithmetic bound, and the window that covers it. */
    method WidenOpenEdge(w: IssueWindow, ghost all: seq<Issue>) returns (widened: IssueWindow, ok: bool)
      requires Ready()
      modifies this`tick, this`requests
      ensures Ready() && Grew()
      ensures QueryOf(widened, []) == QueryOf(w, [])
      ensures ok && w.start < w.end ==> widened.start < widened.end
      ensures ok && Settled(server, all) && Select(all, QueryOf(w, [])) != [] ==> WidensTo(all, w, widened)
      ensures Settled(server, all) && Bounded(all, w) && Select(all, QueryOf(w, [])) != [] ==> !ok
      ensures Settled(server, all) && Found(server, all, w) && !ok && Select(all, QueryOf(w, [])) != []
              ==> HeldByBounds(all, w)
    {
      hide T.SumLost, KeysOf, Windows.DistinctKeys, KeylessIn, Mine;
      if w.openEnd {
        var newest := ProbeCreationDate(w, false);
        if Settled(server, all) {
          SettledDate(server, all, QueryOf(w, []), false, tick - 1);
        }
        if newest.Some? && w.end <= newest.value {
          return w.(end := newest.value + 1), true;
        }
      }
      if w.openStart {
        var oldest := ProbeCreationDate(w, true);
        if Settled(server, all) {
          SettledDate(server, all, QueryOf(w, []), true, tick - 1);
        }
        if oldest.Some? && oldest.value < w.start {
          return w.(start := oldest.value), true;
        }
      }
      return w, false;
    }

    /** A one-second window over the ceiling. An open edge is closed first, so a record names the second it is about. */
    method FetchAtomicWindow(w: IssueWindow, total: nat, depth: nat, ghost all: seq<Issue>)
      returns (err: Option<WalkError>)
      requires Ready() && depth < MAX_SLICE_DEPTH && !w.Splittable()
      modifies this, raw
      ensures After(err) && Grew() && DegradedByDepthOnly() && KeepsFallback(all, err)
      ensures old(Walkable(all, w)) && total == |Select(all, QueryOf(w, []))| && RESULT_WINDOW_LIMIT < total ==>
                WalkedTo(all, w, depth, err, old(Books()), old(degradedReason), |old(records)|)
      ensures Stuck(server, all, w, depth) ==> degradedReason.Some?
      ensures !w.openStart && !w.openEnd ==> degradedReason == old(degradedReason)
      ensures Settled(server, all) && Unfailing(server) && w.start < w.end ==> err.None?
      decreases MAX_SLICE_DEPTH - depth, if w.openStart || w.openEnd then 1 else 0, 1
    {
      if w.openStart || w.openEnd {
        err := CloseAtomicWindow(w, total, depth, all);
      } else {
        if Stuck(server, all, w, depth) {
          StuckLeafIsOpen(server, all, w, depth);
        }
        err := FetchByFacets(w, total, all);
        HandedOverStays(FirstPart(all), old(sunk), sunk);
      }
    }

    /** Either the open edge reaches further and the window is widened, or closing it costs nothing. */
    method CloseAtomicWindow(w: IssueWindow, openTotal: nat, depth: nat, ghost all: seq<Issue>)
      returns (err: Option<WalkError>)
      requires Ready() && depth < MAX_SLICE_DEPTH && (w.openStart || w.openEnd) && !w.Splittable()
      modifies this, raw
      ensures After(err) && Grew() && DegradedByDepthOnly() && KeepsFallback(all, err)
      ensures old(Walkable(all, w)) && openTotal == |Select(all, QueryOf(w, []))| && RESULT_WINDOW_LIMIT < openTotal ==>
                WalkedTo(all, w, depth, err, old(Books()), old(degradedReason), |old(records)|)
      ensures Stuck(server, all, w, depth) ==> degradedReason.Some?
      ensures Settled(server, all) && Unfailing(server) && w.start < w.end ==> err.None?
      decreases MAX_SLICE_DEPTH - depth, 1, 0
    {
      hide T.SumLost, KeysOf, Windows.DistinctKeys, KeylessIn, Mine;
      hide Reaches, OneSecond, Recoverable, HonestPage, Unfailing, Covered, Within, Untouched, DatesAnswer, Settled;
      var widened, ok := WidenOpenEdge(w, all);
      if Stuck(server, all, w, depth) {
        StuckLeafIsOpen(server, all, w, depth);
      }
      if ok {
        if Select(all, QueryOf(w, [])) != [] && WidensTo(all, w, widened) {
          WideningKeepsReach(all, w, widened, depth);
        }
        err := FetchIssueWindow(widened, depth + 1, all);
      } else {
        err := CloseOpenEdge(w, depth, all);
      }
    }

    /** Drops the open edges, which costs nothing when nothing selected lies beyond the arithmetic bounds. */
    method CloseOpenEdge(w: IssueWindow, depth: nat, ghost all: seq<Issue>) returns (err: Option<WalkError>)
      requires Ready() && depth < MAX_SLICE_DEPTH && !w.Splittable()
      modifies this, raw
      ensures After(err) && Grew() && DegradedByDepthOnly() && KeepsFallback(all, err)
      ensures old(Walkable(all, w)) && (Found(server, all, w) ==> HeldByBounds(all, w)) ==>
                WalkedTo(all, w, depth, err, old(Books()), old(degradedReason), |old(records)|)
      ensures degradedReason == old(degradedReason)
      ensures Settled(server, all) && Unfailing(server) && w.start < w.end ==> err.None?
      decreases MAX_SLICE_DEPTH - depth, 0, 3
    {
      hide Reaches;
      var closed := IssueWindow(w.start, w.end, false, false);
      ClosingSelectsNoMore(all, w);
      if HeldByBounds(all, w) {
        ClosingLosesNothing(all, w);
      }
      err := FetchClosedWindow(closed, depth, all);
      if err.None? && Within(Select(all, QueryOf(closed, [])), old(Books()), Books()) {
        ClosedPartWithin(all, w, old(Books()), Books());
      }
    }

    /** The second an edge was closed on, counted again so its record speaks about that second. */
    method FetchClosedWindow(w: IssueWindow, depth: nat, ghost all: seq<Issue>) returns (err: Option<WalkError>)
      requires Ready() && depth < MAX_SLICE_DEPTH && !w.openStart && !w.openEnd && !w.Splittable()
      modifies this, raw
      ensures After(err) && Grew() && DegradedByDepthOnly() && KeepsFallback(all, err)
      ensures old(Walkable(all, w)) ==> WalkedTo(all, w, depth, err, old(Books()), old(degradedReason), |old(records)|)
      ensures degradedReason == old(degradedReason)
      ensures Settled(server, all) && Unfailing(server) && w.start < w.end ==> err.None?
      decreases MAX_SLICE_DEPTH - depth, 0, 2
    {
      hide T.SumLost, KeysOf, Windows.DistinctKeys, KeylessIn, Mine;
      ghost var walkable, before := Walkable(all, w), Books();
      var total;
      total, err := ProbeWindowTotal(w, all);
      if err.Some? {
        return;
      }
      if total == 0 {
        CoveredNothing(before);
        assert walkable ==> Select(all, QueryOf(w, [])) == [];
      } else if ceiling < total {
        err := FetchAtomicWindow(w, total, depth, all);
      } else {
        err := FetchWindowItems(w, total, all);
        HandedOverStays(FirstPart(all), old(sunk), sunk);
      }
    }

    /** One window: probe it, then split it, fetch it, or declare it atomic. */
    method FetchIssueWindow(w: IssueWindow, depth: nat, ghost all: seq<Issue>) returns (err: Option<WalkError>)
      requires Ready()
      modifies this, raw
      ensures After(err) && Grew() && DegradedByDepthOnly() && KeepsFallback(all, err)
      ensures old(Walkable(all, w)) ==> WalkedTo(all, w, depth, err, old(Books()), old(degradedReason), |old(records)|)
      ensures Stuck(server, all, w, depth) ==> degradedReason.Some?
      ensures Hollow(server, all, w) ==> err.None? || degradedReason.Some?
      ensures Settled(server, all) && Unfailing(server) && w.start < w.end ==> err.None?
      ensures old(server.cancelled(tick)) ==> err == Some(WalkCancelled) && tick == old(tick)
      decreases MAX_SLICE_DEPTH - depth, 2, 0
    {
      hide T.SumLost, KeysOf, Windows.DistinctKeys, KeylessIn, Mine;
      hide Reaches, Stuck, Hollow;
      AnsweredWindow(server, all, w, depth, tick);
      if server.cancelled(tick) {
        return Some(WalkCancelled);
      }
      if !w.SafeToRequest() || MAX_SLICE_DEPTH <= depth {
        ReachEndsAtBackstop(all, w, depth);
        err := Degrade(T.MaxDepth, all);
        return;
      }
      ghost var walkable, before := Walkable(all, w), Books();
      var total;
      total, err := ProbeWindowTotal(w, all);
      if err.Some? {
        return;
      }
      if total == 0 {
        CoveredNothing(before);
        assert walkable ==> Select(all, QueryOf(w, [])) == [];
        return;
      }
      if total <= ceiling {
        err := FetchWindowItems(w, total, all);
        HandedOverStays(FirstPart(all), old(sunk), sunk);
      } else if w.Splittable() {
        err := FetchHalves(w, depth, all);
      } else {
        err := FetchAtomicWindow(w, total, depth, all);
      }
    }

    method FetchHalves(w: IssueWindow, depth: nat, ghost all: seq<Issue>) returns (err: Option<WalkError>)
      requires Ready() && w.Splittable() && depth < MAX_SLICE_DEPTH
      modifies this, raw
      ensures After(err) && Grew() && DegradedByDepthOnly() && KeepsFallback(all, err)
      ensures old(Walkable(all, w)) && Select(all, QueryOf(w, [])) != [] ==>
                WalkedTo(all, w, depth, err, old(Books()), old(degradedReason), |old(records)|)
      ensures Stuck(server, all, w, depth) ==> degradedReason.Some?
      ensures Settled(server, all) && Unfailing(server) && w.start < w.end ==> err.None?
      decreases MAX_SLICE_DEPTH - depth, 1, 1
    {
      hide T.SumLost, KeysOf, Windows.DistinctKeys, KeylessIn, Mine;
      hide Reaches, Stuck, Hollow, Found, Recoverable, HonestPage;
      HalvesAreWalkable(server, all, w, seen);
      if Stuck(server, all, w, depth) {
        StuckHalf(server, all, w, depth);
      }
      if Reaches(all, w, depth) && Select(all, QueryOf(w, [])) != [] {
        HalvesReach(all, w, depth);
      }
      err := FetchIssueWindow(SplitWindow(w).0, depth + 1, all);
      if err.None? {
        err := FetchRightHalf(w, depth, all, old(Books()), old(degradedReason), |old(records)|);
      }
    }

    /** The right half, after the left one was walked. */
    method FetchRightHalf(w: IssueWindow, depth: nat, ghost all: seq<Issue>,
                          ghost before: Ledger, ghost reasonBefore: Option<T.TruncationReason>,
                          ghost recordsBefore: nat)
      returns (err: Option<WalkError>)
      requires Ready() && w.Splittable() && depth < MAX_SLICE_DEPTH
      modifies this, raw
      ensures After(err) && Grew() && DegradedByDepthOnly() && KeepsFallback(all, err)
      ensures Settled(server, all) && Untouched(Select(all, QueryOf(w, [])), before.seen)
              && Select(all, QueryOf(w, [])) != []
              && old(WalkedTo(all, SplitWindow(w).0, depth + 1, None, before, reasonBefore, recordsBefore))
              ==> WalkedTo(all, w, depth, err, before, reasonBefore, recordsBefore)
      ensures Stuck(server, all, SplitWindow(w).1, depth + 1) ==> degradedReason.Some?
      ensures Settled(server, all) && Unfailing(server) && w.start < w.end ==> err.None?
      decreases MAX_SLICE_DEPTH - depth, 1, 0
    {
      hide T.SumLost, KeysOf, Windows.DistinctKeys, KeylessIn, Mine;
      ghost var mid, half := Books(), SplitWindow(w).0;
      ghost var dealt := Settled(server, all) && Untouched(Select(all, QueryOf(w, [])), before.seen)
                         && degradedReason.None?
                         && WalkedTo(all, half, depth + 1, None, before, reasonBefore, recordsBefore);
      hide Reaches, Stuck, Found, Recoverable, HonestPage;
      HalvesAreWalkable(server, all, w, before.seen);
      if Reaches(all, w, depth) && Select(all, QueryOf(w, [])) != [] {
        HalvesReach(all, w, depth);
      }
      if dealt {
        RightHalfStaysUntouched(all, w, before, mid);
      }
      err := FetchIssueWindow(SplitWindow(w).1, depth + 1, all);
      if dealt && degradedReason.None? && err.None? {
        HalvesCovered(all, w, before, mid, Books());
      }
    }

    // --- the whole walk

    /** The oldest and newest creation seconds, or 2006 until now when they give no range to bisect. */
    method ProbeIssueRange() returns (root: IssueWindow)
      requires Ready()
      modifies this`tick, this`requests
      ensures Ready() && Grew() && tick == old(tick) + 2
      ensures root == RootOf(server, old(tick))
    {
      var oldest := ProbeCreationDate(ROOT_WINDOW, true);
      var newest := ProbeCreationDate(ROOT_WINDOW, false);
      if oldest.Some? && newest.Some? {
        root := IssueWindow(oldest.value, newest.value + 1, true, true);
        if root.Splittable() {
          return;
        }
      }
      root := IssueWindow(DEFAULT_RANGE_START, server.now(tick) / 1000 + 1, true, true);
    }

    /** Refuses exactly when both halves of the root are answered with at least the whole project. */
    method DatesRespected(root: IssueWindow, ghost all: seq<Issue>) returns (respected: bool, err: Option<WalkError>)
      requires Ready()
      modifies this`tick, this`requests
      ensures Ready() && Grew() && err != Some(SinkFailed)
      ensures err.None? ==> (respected <==> !HalvesFull(server, old(tick), root, initialTotal))
      ensures err.Some? ==> !HalvesFull(server, old(tick), root, initialTotal)
      ensures root.Splittable() ==>
                (err.None? <==> ReportedTotal(server, old(tick), QueryOf(SplitWindow(root).0, [])).Some?
                                && ReportedTotal(server, old(tick) + 1, QueryOf(SplitWindow(root).1, [])).Some?)
      ensures HalvesFull(server, old(tick), root, initialTotal) ==> tick == old(tick) + 2
      ensures RejectsDates(server) && root.Splittable() ==> err.Some? && err.value.DateBoundRejected?
    {
      if !root.Splittable() {
        return true, None;
      }
      var (left, right) := SplitWindow(root);
      var leftTotal, rightTotal;
      leftTotal, err := ProbeWindowTotal(left, all);
      if err.Some? {
        return false, err;
      }
      rightTotal, err := ProbeWindowTotal(right, all);
      if err.Some? {
        return false, err;
      }
      return !(initialTotal <= leftTotal && initialTotal <= rightTotal), None;
    }

    /** Issues neither handed over nor booked; 0 when the server never said how many there were. */
    function Unaccounted(): (lost: int)
      reads this
    {
      if totalKnown then T.Max(0, initialTotal - unique - expectedLoss) else 0
    }

    function FullyBooked(): (booked: bool)
      reads this
    {
      totalKnown && 0 < expectedLoss && Unaccounted() == 0
    }

    /** The one record a walk that stopped short leaves behind: it books whatever no other record names. */
    method RecordShortfall(reason: T.TruncationReason)
      requires Inv() && reason != T.AtomicWindow
      modifies this`expectedLoss, this`records
      ensures Inv() && Grew() && degradedReason == old(degradedReason) && Unchanged()
      ensures records != [] && (totalKnown ==> initialTotal <= unique + expectedLoss)
      ensures old(FullyBooked()) ==> records == old(records)
      ensures !old(FullyBooked()) ==> records == old(records) + [old(Shortfall(reason, Unaccounted()))]
      ensures !old(FullyBooked()) ==> SaysShortfall(|old(records)|, reason, expectedLoss - old(expectedLoss))
    {
      if FullyBooked() {
        return;
      }
      Record(Shortfall(reason, Unaccounted()));
    }

    /** Record `k` is the walk's last: this reason, this loss, and how far the walk got. */
    ghost predicate SaysShortfall(k: nat, reason: T.TruncationReason, lost: int)
      reads this
    {
      && |records| == k + 1
      && var r := records[k];
         && r.reason == reason && r.lost == lost && r.scope == scope
         && r.total == initialTotal && r.totalKnown == totalKnown && r.fetched == unique
         && r.windowStart.None? && r.windowEnd.None?
    }

    twostate predicate Unchanged()
      reads this
    {
      unique == old(unique) && sunk == old(sunk) && duplicates == old(duplicates) && ceiling == old(ceiling)
    }

    /** What the source says it holds at this tick; the opening total when it does not say. */
    function CountAt(tick: nat): (count: int)
      reads this`initialTotal
    {
      var total := ReportedTotal(server, tick, QueryOf(ROOT_WINDOW, []));
      if total.Some? then total.value else initialTotal
    }

    /** The project's issue count now. */
    method CountNow(ghost all: seq<Issue>) returns (after: int)
      requires Inv()
      modifies this`tick, this`requests
      ensures Inv() && after == CountAt(old(tick))
      ensures Settled(server, all) ==> after == |all| || after == initialTotal
    {
      var total, err := ProbeWindowTotal(ROOT_WINDOW, all);
      RootSelectsAll(all, ROOT_WINDOW);
      after := if err.None? then total else initialTotal;
    }

    /** Asks the source how many issues it has now, and records what churn cannot explain. */
    method Reconcile(ghost all: seq<Issue>)
      requires Inv()
      modifies this`tick, this`requests, this`expectedLoss, this`records, this`audits
      ensures Inv() && Audited() && Accounted() && |audits| == |old(audits)| + 1
      ensures audits[|audits| - 1].totalAfter == CountAt(old(tick))
      ensures Settled(server, all) && unique + old(expectedLoss) <= initialTotal == |all|
              ==> unique + expectedLoss == |all|
      ensures Settled(server, all) && unique + old(expectedLoss) == initialTotal == |all|
              ==> records == old(records) && audits[|audits| - 1].UnexplainedDrift() == 0
    {
      var after := CountNow(all);
      AuditWalk(after);
      T.DriftAccounts(audits[|audits| - 1]);
    }

    /** Audits the walk against the source's count now. */
    method AuditWalk(after: int)
      requires Inv()
      modifies this`expectedLoss, this`records, this`audits
      ensures Inv() && Audited() && Accounted()
      ensures |audits| == |old(audits)| + 1 && audits[|audits| - 1].totalAfter == after
      ensures expectedLoss == old(expectedLoss) + T.Max(0, audits[|audits| - 1].UnexplainedDrift())
      ensures var drift := audits[|audits| - 1].UnexplainedDrift();
              if drift == 0 then records == old(records)
              else SaysShortfall(|old(records)|, T.CountDrift, if drift < 0 then 0 else drift)
    {
      var audit := T.Reconciliation(scope, initialTotal, after, unique, duplicates, keyless, expectedLoss, windows,
                                    requests);
      T.DriftAccounts(audit);
      audits := audits + [audit];
      RecordDrift(audit.UnexplainedDrift());
    }

    /** Books a shortfall the audit cannot explain; a surplus is recorded without a loss. */
    method RecordDrift(drift: int)
      requires Inv()
      modifies this`expectedLoss, this`records
      ensures Inv() && expectedLoss == old(expectedLoss) + T.Max(0, drift)
      ensures records == old(records) + DriftRecords(drift)
      ensures if drift == 0 then records == old(records)
              else SaysShortfall(|old(records)|, T.CountDrift, if drift < 0 then 0 else drift)
    {
      if drift == 0 {
        return;
      }
      Record(Shortfall(T.CountDrift, T.Max(0, drift)));
    }

    /** The last audit says what the walk came to; what it cannot explain is recorded once. */
    twostate predicate Audited()
      reads this
    {
      && audits != [] && 0 <= unique
      && var a := audits[|audits| - 1];
         && a == T.Reconciliation(scope, initialTotal, a.totalAfter, unique, duplicates, keyless, old(expectedLoss),
                                   windows, requests)
         && records == old(records) + DriftRecords(a.UnexplainedDrift())
    }

    function DriftRecords(drift: int): (recs: seq<T.TruncationRecord>)
      requires 0 <= unique
      reads this`initialTotal, this`totalKnown, this`unique, this`pageSize, this`pageLimit
    {
      if drift == 0 then [] else [Shortfall(T.CountDrift, T.Max(0, drift))]
    }

    /**
     * No issue went missing silently: what is neither delivered nor booked is what the
     * source itself lost meanwhile.
     */
    ghost predicate Accounted()
      reads this
    {
      audits != [] && initialTotal - (unique + expectedLoss) <= T.Max(0, -audits[|audits| - 1].Churn())
    }

    /** What a walk-ending error means: rejected dates degrade the walk, anything else ends it with a record. */
    method HandleWalkError(failure: WalkError, ghost all: seq<Issue>) returns (err: Option<WalkError>)
      requires After(Some(failure)) && totalKnown && audits == []
      modifies this, raw
      ensures Kept(err) && initialTotal == old(initialTotal) && totalKnown
      ensures err.None? ==> failure.DateBoundRejected? && Accounted() && degradedReason.Some?
      ensures err.None? && old(FallbackKept(all)) ==> FallbackKept(all)
      ensures err.Some? ==> audits == [] && records != [] && Booked()
      ensures old(degradedReason).Some? ==> degradedReason == old(degradedReason)
      ensures old(degradedReason).None? ==> degradedReason in {None, Some(T.DatesRejected)}
      ensures failure.DateBoundRejected? && RootServed(server) ==> err.None?
    {
      if !failure.DateBoundRejected? {
        RecordShortfall(T.IncompleteSlice);
        return Some(failure);
      }
      err := Degrade(T.DatesRejected, all);
      if err.Some? {
        RecordShortfall(T.IncompleteSlice);
        return;
      }
      CloseBooks(all);
    }

    /** The end of a walk that returns normally: book what a degradation left out, then audit. */
    method CloseBooks(ghost all: seq<Issue>)
      requires Inv() && totalKnown && audits == []
      modifies this`tick, this`requests, this`expectedLoss, this`records, this`audits
      ensures Inv() && Unchanged() && degradedReason == old(degradedReason)
      ensures initialTotal == old(initialTotal) && totalKnown
      ensures Accounted()
      ensures degradedReason.None? ==> Audited()
      ensures degradedReason.None? && Settled(server, all) && unique + old(expectedLoss) <= initialTotal == |all|
              ==> unique + expectedLoss == |all|
      ensures degradedReason.None? && Settled(server, all) && unique + old(expectedLoss) == initialTotal == |all|
              ==> records == old(records) && audits[|audits| - 1].UnexplainedDrift() == 0
    {
      hide Settled, T.SumLost, KeysOf, Windows.DistinctKeys, KeylessIn, Mine;
      if degradedReason.Some? {
        CloseDegradedBooks(all);
      } else {
        Reconcile(all);
      }
    }

    method CloseDegradedBooks(ghost all: seq<Issue>)
      requires Inv() && degradedReason.Some?
      modifies this`tick, this`requests, this`expectedLoss, this`records, this`audits
      ensures Inv() && Accounted() && records != []
    {
      RecordShortfall(degradedReason.value);
      Reconcile(all);
    }

    /** What a walk booked is what its artefact totals, exactly when no two losing records share an identity. */
    lemma ArtefactKeepsLoss()
      requires Inv()
      ensures var artefact := T.Merged(T.EMPTY_STATE, T.TruncationState(records, audits, 0));
              artefact.totalLost <= expectedLoss
              && (artefact.totalLost == expectedLoss <==> T.LosersDistinct(records))
    {
      T.TotalSurvivesMerging(records, audits);
    }

    /** Nothing was fetched, booked or degraded yet. */
    ghost predicate Fresh()
      reads this
    {
      Books() == EMPTY_BOOKS && records == [] && audits == [] && degradedReason.None?
    }

    /**
     * The sliced walk of one project. Whatever the server does, a walk that returns
     * normally accounts for every issue of the opening total. One that fails books all
     * that is missing but the batch the sink refused, unless both halves of its root are
     * answered with the whole project: then, exactly, a failing fallback ends it without
     * any record.
     */
    method SliceProjectIssues(ghost all: seq<Issue>) returns (err: Option<WalkError>)
      requires Ready() && totalKnown && Fresh()
      modifies this, raw
      ensures Kept(err) && initialTotal == old(initialTotal) && totalKnown
      ensures err.None? ==> Accounted() && FallbackKept(all)
      ensures err.Some? ==> (records == [] <==> FindsDatesIgnored(server, old(tick), initialTotal))
      ensures err.Some? && records != [] ==> Booked()
      ensures degradedReason == Some(T.DatesIgnored) <==> FindsDatesIgnored(server, old(tick), initialTotal)
      ensures FindsDatesIgnored(server, old(tick), initialTotal) && RefusesUndated(server, old(tick) + 4)
              ==> err.Some? && sunk == [] && audits == []
      ensures IgnoresDates(server, all) && initialTotal == |all| && err.None? ==> degradedReason.Some?
      ensures err.None? && degradedReason.None? && Settled(server, all) && initialTotal == |all|
              ==> Exact(all, Found(server, all, RootOf(server, old(tick))))
      ensures Settled(server, all) && 0 < initialTotal == |all| && Reaches(all, RootOf(server, old(tick)), 0)
              ==> degradedReason in {None, Some(T.DatesRejected)}
      ensures initialTotal == |all| && Stuck(server, all, RootOf(server, old(tick)), 0)
              ==> degradedReason == Some(T.MaxDepth)
      ensures Settled(server, all) && Unfailing(server) && 0 < initialTotal == |all| ==> err.None?
      ensures Settled(server, all) && Unfailing(server) && 0 < initialTotal == |all|
              && Reaches(all, RootOf(server, old(tick)), 0)
              ==> degradedReason.None?
      ensures RejectsDates(server) && RootServed(server) ==> err.None? && degradedReason == Some(T.DatesRejected)
      ensures FindsDatesIgnored(server, old(tick), initialTotal) && RootServed(server) ==> err.None?
    {
      hide Reaches, Found, HonestPage, RootServed, RejectsDates, OneSecond, IgnoresDates, FindsDatesIgnored;
      seen := {};
      var root, respected;
      root, respected, err := CheckDates(all);
      if err.Some? {
        err := HandleWalkError(err.value, all);
      } else if !respected {
        err := FallBackFromIgnoredDates(all);
      } else {
        err := WalkAndClose(root, all);
      }
    }

    /** Finds the root, and whether the server honours date bounds at all. */
    method CheckDates(ghost all: seq<Issue>) returns (root: IssueWindow, respected: bool, err: Option<WalkError>)
      requires Ready()
      modifies this`tick, this`requests
      ensures Ready() && root == RootOf(server, old(tick))
      ensures err.None? && !respected <==> FindsDatesIgnored(server, old(tick), initialTotal)
      ensures FindsDatesIgnored(server, old(tick), initialTotal) ==> tick == old(tick) + 4
      ensures Settled(server, all) && initialTotal == |all| && all != [] ==> err.Some? || respected
      ensures IgnoresDates(server, all) && initialTotal == |all| ==> err.Some? || !respected
      ensures err != Some(SinkFailed) && (Settled(server, all) ==> root.Splittable())
      ensures Settled(server, all) && PagesAnswer(server) ==> err.None?
      ensures RejectsDates(server) ==> err.Some? && err.value.DateBoundRejected?
    {
      DatesCheckIsRight(server, all, tick);
      root := ProbeIssueRange();
      respected, err := DatesRespected(root, all);
    }

    /** The server answers both halves of the root with everything: only the undated fetch is left. */
    method FallBackFromIgnoredDates(ghost all: seq<Issue>) returns (err: Option<WalkError>)
      requires Ready() && totalKnown && Fresh()
      modifies this, raw
      ensures Kept(err) && initialTotal == old(initialTotal) && totalKnown
      ensures degradedReason == Some(T.DatesIgnored)
      ensures err.None? ==> Accounted() && FallbackKept(all)
      ensures err.Some? ==> records == [] && audits == []
      ensures RefusesUndated(server, old(tick)) ==> err.Some? && sunk == []
      ensures RootServed(server) ==> err.None?
    {
      err := Degrade(T.DatesIgnored, all);
      if err.None? {
        CloseBooks(all);
      }
    }

    /** The walk from the root, and what its outcome leads to. */
    method WalkAndClose(root: IssueWindow, ghost all: seq<Issue>) returns (err: Option<WalkError>)
      requires Ready() && totalKnown && Fresh() && root.openStart && root.openEnd
      modifies this, raw
      ensures Kept(err) && initialTotal == old(initialTotal) && totalKnown
      ensures err.None? ==> Accounted() && FallbackKept(all)
      ensures err.Some? ==> records != [] && Booked()
      ensures degradedReason != Some(T.DatesIgnored)
      ensures err.None? && degradedReason.None? && Settled(server, all) && root.start < root.end
              && initialTotal == |all|
              ==> Exact(all, Found(server, all, root))
      ensures Settled(server, all) && root.Splittable() && Reaches(all, root, 0)
              ==> degradedReason in {None, Some(T.DatesRejected)}
      ensures Stuck(server, all, root, 0) ==> degradedReason == Some(T.MaxDepth)
      ensures Settled(server, all) && Unfailing(server) && root.start < root.end ==> err.None?
      ensures Settled(server, all) && Unfailing(server) && root.Splittable() && Reaches(all, root, 0)
              ==> degradedReason.None?
    {
      err := WalkFromRoot(root, all);
      if err.Some? {
        err := HandleWalkError(err.value, all);
      } else {
        CloseBooks(all);
      }
    }

    /** The walk proper, from the untouched root window. */
    method WalkFromRoot(root: IssueWindow, ghost all: seq<Issue>) returns (err: Option<WalkError>)
      requires Ready() && root.openStart && root.openEnd
      requires Books() == EMPTY_BOOKS && records == []
      modifies this, raw
      ensures After(err) && Grew() && DegradedByDepthOnly() && KeepsFallback(all, err)
      ensures err.None? && degradedReason.None? && Settled(server, all) && root.start < root.end ==>
                && duplicates == 0 && unique + expectedLoss <= |all| && multiset(sunk) <= multiset(all)
                && (Recoverable(server, all) ==> records == [])
                && (Found(server, all, root) ==> unique + expectedLoss == |all|)
                && (Found(server, all, root) && Recoverable(server, all) ==> multiset(sunk) == multiset(all))
      ensures Settled(server, all) && root.Splittable() && Reaches(all, root, 0)
              ==> degradedReason == old(degradedReason)
      ensures Stuck(server, all, root, 0) ==> degradedReason.Some?
      ensures Settled(server, all) && Unfailing(server) && root.start < root.end ==> err.None?
    {
      ghost var before := Books();
      RootSelectsAll(all, root);
      err := FetchIssueWindow(root, 0, all);
      if err.None? && degradedReason.None? && Settled(server, all) && root.start < root.end
         && Recoverable(server, all) && Found(server, all, root) {
        CoveredWithoutLoss(all, before, Books());
      }
    }

    /** What the unsliced first fetch leads to. */
    method ContinueFrom(res: PageResult<Issue>, ghost all: seq<Issue>)
      returns (delivered: seq<Issue>, sliced: bool, err: Option<WalkError>)
      requires Ready() && Tidy(res) && Fresh()
      requires Settled(server, all) ==> Brings(res, all, true)
      modifies this, raw
      ensures Inv() && initialTotal == res.total && (sliced <==> res.reason == Some(PageLimitClamp) && res.totalKnown)
      ensures sliced ==> delivered == sunk && Kept(err)
      ensures err.None? && sliced ==> Accounted()
      ensures err.None? && degradedReason.Some? && HonestPage(server, all, QueryOf(ROOT_WINDOW, []))
              ==> AllHandedOver(FirstPart(all), delivered)
      ensures err.Some? ==> (records == [] <==> !sliced || FindsDatesIgnored(server, old(tick), initialTotal))
      ensures err.Some? && records != [] ==> Booked()
      ensures RefusesAfterFirst(res, server, old(tick))
              ==> err.Some? && delivered == [] && records == [] && audits == []
      ensures sliced && IgnoresDates(server, all) && initialTotal == |all| && err.None? ==> degradedReason.Some?
      ensures err.None? && Settled(server, all) && degradedReason.None?
              ==> DeliveredExactly(all, delivered, Found(server, all, RootOf(server, old(tick))))
      ensures Settled(server, all) && Reaches(all, RootOf(server, old(tick)), 0)
              ==> degradedReason in {None, Some(T.DatesRejected)}
      ensures sliced && Stuck(server, all, RootOf(server, old(tick)), 0) ==> degradedReason == Some(T.MaxDepth)
      ensures Settled(server, all) && Unfailing(server) ==> err.None?
      ensures Settled(server, all) && Unfailing(server) && Reaches(all, RootOf(server, old(tick)), 0)
              ==> degradedReason.None?
      ensures sliced && RejectsDates(server) && RootServed(server)
              ==> err.None? && degradedReason == Some(T.DatesRejected)
      ensures sliced && FindsDatesIgnored(server, old(tick), initialTotal) && RootServed(server) ==> err.None?
    {
      hide Reaches, Found, RootServed, RejectsDates, OneSecond, IgnoresDates, FindsDatesIgnored;
      initialTotal, totalKnown := res.total, res.totalKnown;
      sliced := res.reason == Some(PageLimitClamp) && res.totalKnown;
      if !res.truncated {
        delivered := res.items;
        err := if server.sinkFails(tick) then Some(SinkFailed) else None;
      } else if sliced {
        err := SliceProjectIssues(all);
        delivered := sunk;
      } else {
        err := DegradeUnknownTotal(res.reason.value, all);
        delivered := sunk;
      }
    }

    /** A first fetch truncated with no total to bisect toward. */
    method DegradeUnknownTotal(reason: Reason, ghost all: seq<Issue>) returns (err: Option<WalkError>)
      requires Kept(None) && Fresh()
      modifies this, raw
      ensures Kept(err) && initialTotal == old(initialTotal) && degradedReason.Some?
      ensures err.None? ==> FallbackKept(all) && (totalKnown ==> initialTotal <= unique + expectedLoss)
      ensures degradedReason == Some(if reason == PageLimitClamp then T.PageLimitClamp else T.UnknownTotal)
      ensures err.Some? ==> records == [] && audits == []
      ensures RefusesUndated(server, old(tick)) ==> err.Some? && sunk == []
      ensures RootServed(server) ==> err.None?
    {
      err := Degrade(ReasonOf(reason), all);
      if err.None? {
        RecordShortfall(degradedReason.value);
      }
    }

    /**
     * Every issue was delivered once or booked once. All were delivered, and nothing
     * recorded, when the project fits in one fetch, or when no second is overfull and
     * no issue can have been missed.
     */
    ghost predicate DeliveredExactly(all: seq<Issue>, delivered: seq<Issue>, found: bool)
      reads this
    {
      && multiset(delivered) <= multiset(all)
      && |delivered| + expectedLoss == |all|
      && duplicates == 0
      && ((Recoverable(server, all) && found) || |all| <= RESULT_WINDOW_LIMIT
          ==> multiset(delivered) == multiset(all) && records == [])
    }

    /** `DeliveredExactly` for a sliced walk, whose audit then finds no drift to explain. */
    ghost predicate Exact(all: seq<Issue>, found: bool)
      reads this
    {
      && duplicates == 0
      && unique + expectedLoss == |all|
      && multiset(sunk) <= multiset(all)
      && (found ==> audits != [] && audits[|audits| - 1].UnexplainedDrift() == 0)
      && (found && Recoverable(server, all) ==> multiset(sunk) == multiset(all) && records == [])
    }

    /** An honest server, a proper window, and nothing of it handed over yet. */
    ghost predicate Walkable(all: seq<Issue>, w: IssueWindow)
      reads this
    {
      Pending(all, QueryOf(w, [])) && w.start < w.end
    }

    /**
     * What walking a window came to, against an honest server: with no error and no
     * degradation only its selection was dealt with, and all of it when its bounds
     * hold it or the creation date requests find the rest; nothing is booked when no
     * second is overfull; and a window within reach never degrades the walk.
     */
    ghost predicate WalkedTo(all: seq<Issue>, w: IssueWindow, depth: nat, err: Option<WalkError>,
                             before: Ledger, reasonBefore: Option<T.TruncationReason>, recordsBefore: nat)
      reads this
    {
      && (err.None? && degradedReason.None? ==>
            && Within(Select(all, QueryOf(w, [])), before, Books())
            && (Found(server, all, w) ==> Covered(Select(all, QueryOf(w, [])), before, Books()))
            && (Recoverable(server, all) ==> |records| == recordsBefore))
      && (Reaches(all, w, depth) && OneEnded(w) ==> degradedReason == reasonBefore)
    }
  }

  /** The first fetch was truncated, and what it leads to is refused without a record. */
  ghost predicate RefusesAfterFirst(res: PageResult<Issue>, server: Server, tick: nat) {
    && res.reason.Some?
    && if res.reason == Some(PageLimitClamp) && res.totalKnown
       then FindsDatesIgnored(server, tick, res.total) && RefusesUndated(server, tick + 4)
       else RefusesUndated(server, tick)
  }

  /**
   * One project's issues. The unsliced fetch comes first; only a fetch clamped by the
   * result ceiling is sliced. `delivered` is everything the sink was handed, and
   * `began` the tick at which slicing starts.
   *
   * Against an honest server over a fixed collection, whatever requests fail on the
   * way: a fetch that succeeds undegraded delivers or books every issue exactly once;
   * when no second is overfull it delivers all of them, unless an issue lies outside
   * the root and a creation date request fails; a degraded success delivers at least
   * what the unsliced fetch returns. While bisecting reaches every issue, only rejected
   * dates can degrade it: so when the issues lie between 2006 and now, and also
   * elsewhere when the creation date requests find two different seconds. With all
   * issues in one second, and no request failing, the spans decide it: a second too
   * far from 2006 until now always degrades the walk. A server that drops the date
   * parameters always degrades it. A failure leaves a record exactly when the walk was
   * sliced and its dates were not ignored, and then all that is missing is booked
   * except the batch the sink refused, if that was the failure.
   */
  method FetchProjectIssues(server: Server, raw: Client, scope: T.Scope, ghost all: seq<Issue>)
    returns (delivered: seq<Issue>, s: Slicer, sliced: bool, err: Option<WalkError>, ghost began: nat)
    requires raw.Valid()
    modifies raw
    ensures fresh(s) && s.Inv() && s.server == server
    ensures sliced ==> delivered == s.sunk && (s.Refused() == [] <==> err != Some(SinkFailed))
    ensures err.None? && sliced ==> s.Accounted()
    ensures err.None? && s.degradedReason.Some? && HonestPage(server, all, QueryOf(ROOT_WINDOW, []))
            ==> AllHandedOver(FirstPart(all), delivered)
    ensures err.Some? ==> (s.records == [] <==> !sliced || FindsDatesIgnored(server, began, s.initialTotal))
    ensures err.Some? && s.records != [] ==> s.Booked()
    ensures sliced && IgnoresDates(server, all) && s.initialTotal == |all| && err.None? ==> s.degradedReason.Some?
    ensures err.None? && Settled(server, all) && s.degradedReason.None?
            ==> s.DeliveredExactly(all, delivered, Found(server, all, RootOf(server, began)))
    ensures Settled(server, all) && Reaches(all, RootOf(server, began), 0)
            ==> s.degradedReason in {None, Some(T.DatesRejected)}
    ensures Settled(server, all) && (WithinDefaultRange(server, all) || (DatesAnswer(server, all) && Spread(all)))
            ==> Found(server, all, RootOf(server, began)) && Reaches(all, RootOf(server, began), 0)
    ensures sliced && RejectsDates(server) && RootServed(server)
            ==> err.None? && s.degradedReason == Some(T.DatesRejected)
    ensures sliced && FindsDatesIgnored(server, began, s.initialTotal) && RootServed(server) ==> err.None?
    ensures Settled(server, all) && Unfailing(server) ==> err.None?
    ensures Settled(server, all) && Unfailing(server) && Reaches(all, RootOf(server, began), 0)
            ==> s.degradedReason.None?
    ensures Settled(server, all) && Unfailing(server) && Recoverable(server, all)
            && Found(server, all, RootOf(server, began)) && Reaches(all, RootOf(server, began), 0)
            ==> err.None? && multiset(delivered) == multiset(all) && s.records == []
    ensures Answering(server, all) && OneSecond(all) && RESULT_WINDOW_LIMIT < |all|
            ==> sliced && (s.degradedReason == Some(T.MaxDepth) <==> OutOfReach(all[0].created, server.now(3)))
  {
    hide Reaches, Found, OneSecond, OutOfReach, WithinDefaultRange, Spread, HonestPage, Recoverable;
    hide RejectsDates, RootServed, IgnoresDates, FindsDatesIgnored, AllHandedOver, Decides, Settled, PagesAnswer;
    var res;
    s, res, err := FetchUnsliced(server, raw, scope, all);
    delivered, sliced, began := [], false, s.tick;
    FetchIsWithinReach(server, all, began);
    if err.None? {
      delivered, sliced, err := s.ContinueFrom(res, all);
    }
  }

  /** The first fetch, which stops as soon as it knows that it is clamped. */
  method FetchUnsliced(server: Server, raw: Client, scope: T.Scope, ghost all: seq<Issue>)
    returns (s: Slicer, res: PageResult<Issue>, err: Option<WalkError>)
    requires raw.Valid()
    modifies raw
    ensures fresh(s) && s.server == server && s.raw == raw && s.Ready() && s.Fresh()
    ensures err.None? ==> Tidy(res)
    ensures err.None? && Settled(server, all) ==> Brings(res, all, true)
    ensures var size := old(raw.Learned(ISSUES_PATH)).SizeFor(ISSUE_PAGE_SIZE, server.now(0));
            var reply := server.page(0, QueryOf(ROOT_WINDOW, []), 1, size);
            0 < size && Decides(reply, IssueOpts(true), size) ==> err.None? && DecidedBy(res, reply) && s.tick == 1
    ensures PagesAnswer(server) || Unfailing(server) ==> err.None?
    ensures Settled(server, all) && PagesAnswer(server) && RESULT_WINDOW_LIMIT < |all| ==> s.tick == 1
  {
    s := new Slicer(server, raw, scope);
    if Settled(server, all) {
      SettledPage(server, all, QueryOf(ROOT_WINDOW, []));
    }
    RootSelectsAll(all, ROOT_WINDOW);
    var failure;
    res, failure := s.FetchQuery(QueryOf(ROOT_WINDOW, []), true, all);
    err := if failure.Some? then Some(AsDateBoundRejection(ROOT_WINDOW, failure.value)) else None;
  }

  /**
   * Both exits that leave no record, on a server that answers the first fetch and every
   * one-row request but no other: with a total past the ceiling the dates are found to
   * be ignored, with none there is nothing to bisect toward. Either way the fallback
   * fails, nothing is delivered, and no record says that anything is missing.
   */
  method RefusedFallbackLeavesNoRecord(total: Option<nat>, now: int, scope: T.Scope)
    returns (delivered: seq<Issue>, s: Slicer, err: Option<WalkError>)
    requires DEFAULT_RANGE_START < now / 1000 && (total.Some? ==> RESULT_WINDOW_LIMIT < total.value)
    ensures err.Some? && delivered == [] && s.records == [] && s.audits == []
    ensures total.Some? ==> s.initialTotal == total.value
  {
    var server := RefusingServer(total, now);
    var raw := new Client();
    RefusingServerRefuses(total, now);
    var res;
    s, res, err := FetchUnsliced(server, raw, scope, []);
    ghost var sliced;
    delivered, sliced, err := s.ContinueFrom(res, []);
  }
}
