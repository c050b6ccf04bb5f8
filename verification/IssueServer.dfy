/** The issue search endpoint, and what it means for it to serve a fixed collection honestly. */
module IssueServer {
  import opened Wrappers
  import opened PageSizes
  import opened RawClient
  import opened Windows
  import opened Depths

  datatype FacetReply = FacetFailed(error: FetchError) | Buckets(values: seq<FacetValue>)

  /**
   * Every answer the walk can get, indexed by tick, so the server may change its
   * mind, its data and its manners between any two requests. `now` is in
   * milliseconds.
   */
  datatype Server = Server(
    page: (nat, Query, nat, nat) -> PageReply<Issue>,
    created: (nat, Query, bool) -> Option<int>,
    facet: (nat, Query, Facet) -> FacetReply,
    cancelled: nat -> bool,
    now: nat -> int,
    sinkFails: nat -> bool,
    mqr: bool)

  /** 2006-01-01T00:00:00Z. */
  const DEFAULT_RANGE_START := 1136073600

  function WireOf(server: Server, q: Query): (wire: Wire<Issue>) {
    Wire((tick: nat, page: nat, size: nat) => server.page(tick, q, page, size), server.cancelled, server.now)
  }

  predicate IsTaxonomyFacet(f: Facet) {
    f in {Types, Severities, ImpactSoftwareQualities, ImpactSeverities}
  }

  /** The total a one-row request reports, if it is answered and carries one. */
  function ReportedTotal(server: Server, tick: nat, q: Query): (total: Option<nat>) {
    match server.page(tick, q, 1, 1)
    case Page(_, total) => total
    case Failed(_) => None
  }

  /** A page request may fail; a page that comes back is the right one and carries the true total. */
  ghost predicate HonestPage(server: Server, all: seq<Issue>, q: Query) {
    forall tick: nat, page: nat, size: nat | 1 <= page && 1 <= size ::
      var reply := server.page(tick, q, page, size);
      reply.Failed? || (reply.items == PageOf(Select(all, q), page, size) && reply.total == Some(|Select(all, q)|))
  }

  ghost predicate HonestPages(server: Server, all: seq<Issue>) {
    forall q: Query :: HonestPage(server, all, q)
  }

  /**
   * The creation date of the first issue in creation order, oldest or newest first;
   * the request may fail.
   */
  ghost predicate HonestDates(server: Server, all: seq<Issue>) {
    forall tick: nat, q: Query, oldest: bool :: IsExtreme(Select(all, q), oldest, server.created(tick, q, oldest))
  }

  ghost predicate IsExtreme(s: seq<Issue>, oldest: bool, answer: Option<int>) {
    answer.Some? ==>
      && (exists i :: i in s && i.created == answer.value)
      && (forall i | i in s :: if oldest then answer.value <= i.created else i.created <= answer.value)
  }

  /** No creation date request that has an answer fails. */
  ghost predicate DatesAnswer(server: Server, all: seq<Issue>) {
    forall tick: nat, q: Query, oldest: bool | Select(all, q) != [] :: server.created(tick, q, oldest).Some?
  }

  /** No page request fails, and the walk is never cancelled. */
  ghost predicate PagesAnswer(server: Server) {
    && (forall tick: nat, q: Query, page: nat, size: nat | 1 <= page && 1 <= size ::
          server.page(tick, q, page, size).Page?)
    && (forall tick: nat :: !server.cancelled(tick))
  }

  /** The same of one query alone. */
  ghost predicate QueryAnswers(server: Server, q: Query) {
    && (forall tick: nat, page: nat, size: nat | 1 <= page && 1 <= size :: server.page(tick, q, page, size).Page?)
    && (forall tick: nat :: !server.cancelled(tick))
  }

  /** The undated query is always answered, and the sink takes what it brings. */
  ghost predicate RootServed(server: Server) {
    QueryAnswers(server, QueryOf(ROOT_WINDOW, [])) && forall tick: nat :: !server.sinkFails(tick)
  }

  /** Every request that carries a date bound is refused as a bad one, at any time past 2006. */
  ghost predicate RejectsDates(server: Server) {
    && (forall tick: nat, q: Query, page: nat, size: nat
          | (q.after.Some? || q.before.Some?) && 1 <= page && 1 <= size ::
          var reply := server.page(tick, q, page, size);
          reply.Failed? && reply.error.HttpError? && reply.error.status == 400)
    && (forall tick: nat :: DEFAULT_RANGE_START < server.now(tick) / 1000)
  }

  /** Nor does the sink ever refuse a batch. */
  ghost predicate Unfailing(server: Server) {
    PagesAnswer(server) && forall tick: nat :: !server.sinkFails(tick)
  }

  /**
   * A facet request may fail or omit the facet. The buckets it returns are exact;
   * those of a type or severity facet are all of them, while rules, directories
   * and files may silently stop at the server's cap.
   */
  ghost predicate HonestFacet(server: Server, all: seq<Issue>, q: Query, f: Facet) {
    forall tick: nat :: HonestBuckets(all, q, f, server.facet(tick, q, f))
  }

  ghost predicate HonestBuckets(all: seq<Issue>, q: Query, f: Facet, reply: FacetReply) {
    reply.FacetFailed? ||
    (ExactBuckets(all, q, f, reply.values) &&
     (IsTaxonomyFacet(f) && reply.values != [] ==> forall i | i in Select(all, q) :: Bucketed(i, f, reply.values)))
  }

  ghost predicate HonestFacets(server: Server, all: seq<Issue>) {
    forall q: Query, f: Facet :: HonestFacet(server, all, q, f)
  }

  /** An honest server over a fixed collection with one value per facet. */
  ghost predicate Settled(server: Server, all: seq<Issue>) {
    && HonestPages(server, all) && HonestDates(server, all) && HonestFacets(server, all)
    && SingleValued(all) && DistinctKeys(all)
    && (forall tick: nat :: DEFAULT_RANGE_START < server.now(tick) / 1000)
  }

  /** No one-second window holds more than the server will return. */
  ghost predicate NoOverfullSecond(all: seq<Issue>) {
    forall second: int :: |Select(all, Query(Some(second), Some(second + 1), []))| <= RESULT_WINDOW_LIMIT
  }

  /** Every issue was created between 2006 and any reading of the clock, a span the backstop lets bisect. */
  ghost predicate WithinDefaultRange(server: Server, all: seq<Issue>) {
    && (forall i, tick: nat | i in all :: DEFAULT_RANGE_START <= i.created <= server.now(tick) / 1000)
    && (forall tick: nat :: Levels(server.now(tick) / 1000 + 1 - DEFAULT_RANGE_START) < MAX_SLICE_DEPTH)
  }

  /** The server drops the date parameters: it answers a dated request without filters like the undated one. */
  ghost predicate IgnoresDates(server: Server, all: seq<Issue>) {
    && HonestPage(server, all, QueryOf(ROOT_WINDOW, []))
    && (forall tick: nat, q: Query | q.filters == [] ::
          ReportedTotal(server, tick, q) == None || ReportedTotal(server, tick, q) == Some(|all|))
    && (forall tick: nat :: DEFAULT_RANGE_START < server.now(tick) / 1000)
  }

  lemma HonestPageServes(server: Server, all: seq<Issue>, q: Query)
    requires HonestPage(server, all, q)
    ensures Serves(WireOf(server, q).fetch, Select(all, q)) && CarriesTotals(WireOf(server, q).fetch)
    ensures forall tick: nat :: ReportedTotal(server, tick, q) in {None, Some(|Select(all, q)|)}
  {
  }

  /** A server that answers every page request is one a fetch survives at its first page size. */
  lemma AnsweringIsSurvivable(server: Server, q: Query, tick: nat, size: nat)
    requires QueryAnswers(server, q) && 1 <= size
    ensures Survivable(WireOf(server, q), tick, size)
  {
  }

  lemma SettledPage(server: Server, all: seq<Issue>, q: Query)
    requires Settled(server, all)
    ensures HonestPage(server, all, q)
  {
  }

  lemma SettledFacet(server: Server, all: seq<Issue>, q: Query, f: Facet, tick: nat)
    requires Settled(server, all)
    ensures HonestBuckets(all, q, f, server.facet(tick, q, f))
  {
    assert HonestFacet(server, all, q, f);
  }

  lemma SettledDate(server: Server, all: seq<Issue>, q: Query, oldest: bool, tick: nat)
    requires Settled(server, all)
    ensures IsExtreme(Select(all, q), oldest, server.created(tick, q, oldest))
  {
  }

  // ---------------------------------------------------------------------------
  // Such a server exists for every collection and clock

  function FirstCreated(s: seq<Issue>, oldest: bool): (second: Option<int>)
    ensures second.Some? <==> s != []
    ensures IsExtreme(s, oldest, second)
  {
    if s == [] then None
    else
      var before, last := FirstCreated(s[..|s| - 1], oldest), s[|s| - 1];
      if before.Some? && (if oldest then before.value <= last.created else last.created <= before.value) then before
      else Some(last.created)
  }

  /** The values a facet takes in a list of issues. */
  ghost function ValuesOf(s: seq<Issue>, f: Facet): (values: set<string>)
    ensures forall v :: v in values <==> v != "" && exists i :: i in s && (f, v) in i.tags
  {
    if s == [] then {}
    else
      var init, last := s[..|s| - 1], s[|s| - 1];
      assert s == init + [last];
      ValuesOf(init, f) + set t | t in last.tags && t.0 == f && t.1 != "" :: t.1
  }

  ghost predicate HasValue(buckets: seq<FacetValue>, v: string) {
    exists a :: 0 <= a < |buckets| && buckets[a].val == v
  }

  lemma HasValueAppend(buckets: seq<FacetValue>, b: FacetValue)
    ensures forall v :: HasValue(buckets + [b], v) <==> HasValue(buckets, v) || v == b.val
  {
    var more := buckets + [b];
    assert more[|buckets|] == b;
    assert forall a | 0 <= a < |buckets| :: more[a] == buckets[a];
  }

  lemma ExactAppend(all: seq<Issue>, q: Query, f: Facet, buckets: seq<FacetValue>, v: string)
    requires ExactBuckets(all, q, f, buckets) && v != "" && !HasValue(buckets, v)
    ensures ExactBuckets(all, q, f, buckets + [FacetValue(v, |Select(all, CellQuery(q, f, v))|)])
  {
    forall a | 0 <= a < |buckets| ensures buckets[a].val != v {
    }
  }

  /** Those values with their counts. */
  ghost function Counted(all: seq<Issue>, q: Query, f: Facet, values: set<string>): (buckets: seq<FacetValue>)
    requires "" !in values
    ensures ExactBuckets(all, q, f, buckets)
    ensures forall v :: v in values <==> HasValue(buckets, v)
  {
    if values == {} then []
    else
      var v :| v in values;
      var rest, bucket := Counted(all, q, f, values - {v}), FacetValue(v, |Select(all, CellQuery(q, f, v))|);
      ExactAppend(all, q, f, rest, v);
      HasValueAppend(rest, bucket);
      rest + [bucket]
  }

  ghost predicate AllValued(s: seq<Issue>, f: Facet) {
    forall i | i in s :: exists v :: v != "" && (f, v) in i.tags
  }

  /** All buckets of the facet; a type or severity facet is omitted when some issue has no value for it. */
  ghost function BucketsOf(all: seq<Issue>, q: Query, f: Facet): (reply: FacetReply)
    ensures HonestBuckets(all, q, f, reply)
    ensures reply.Buckets? && (AllValued(Select(all, q), f) && Select(all, q) != [] ==> reply.values != [])
    ensures AllValued(Select(all, q), f) ==> forall v | v in ValuesOf(Select(all, q), f) :: HasValue(reply.values, v)
  {
    var s := Select(all, q);
    if IsTaxonomyFacet(f) && !AllValued(s, f) then Buckets([])
    else
      var values := Counted(all, q, f, ValuesOf(s, f));
      assert AllValued(s, f) ==> forall i | i in s :: Bucketed(i, f, values) by {
        if AllValued(s, f) {
          forall i | i in s ensures Bucketed(i, f, values) {
            var v :| v != "" && (f, v) in i.tags;
            assert v in ValuesOf(s, f) && HasValue(values, v);
          }
        }
      }
      assert AllValued(s, f) && s != [] ==> Bucketed(s[0], f, values) by {
        if AllValued(s, f) && s != [] {
          assert s[0] in s;
        }
      }
      Buckets(values)
  }

  /** Serves `all` without a failure, facets included. */
  ghost function PlainServer(all: seq<Issue>, now: int): (server: Server) {
    Server(
      (tick: nat, q: Query, page: nat, size: nat) =>
        if page == 0 then Failed(Unreadable) else Page(PageOf(Select(all, q), page, size), Some(|Select(all, q)|)),
      (tick: nat, q: Query, oldest: bool) => FirstCreated(Select(all, q), oldest),
      (tick: nat, q: Query, f: Facet) => BucketsOf(all, q, f),
      (tick: nat) => false, (tick: nat) => now, (tick: nat) => false, false)
  }

  lemma HonestServersExist(all: seq<Issue>, now: int)
    requires SingleValued(all) && DistinctKeys(all) && DEFAULT_RANGE_START < now / 1000
    ensures Settled(PlainServer(all, now), all) && DatesAnswer(PlainServer(all, now), all)
    ensures PagesAnswer(PlainServer(all, now))
  {
    var server := PlainServer(all, now);
    forall q: Query ensures HonestPage(server, all, q) {
    }
    forall q: Query, f: Facet ensures HonestFacet(server, all, q, f) {
      assert forall tick: nat :: server.facet(tick, q, f) == BucketsOf(all, q, f);
    }
    forall tick: nat, q: Query, oldest: bool
      ensures server.created(tick, q, oldest) == FirstCreated(Select(all, q), oldest)
    {
    }
  }

  /** `n` issues, one a second, each with a type and a severity. */
  function OneEachSecond(n: nat): (all: seq<Issue>)
    ensures |all| == n
    ensures forall k | 0 <= k < n :: all[k] == Issue(seq(k + 1, _ => 'k'), DEFAULT_RANGE_START + k, SAMPLE_TAGS)
  {
    seq(n, k requires k >= 0 => Issue(seq(k + 1, _ => 'k'), DEFAULT_RANGE_START + k, SAMPLE_TAGS))
  }

  const SAMPLE_TAGS: set<Filter> := {(Types, "BUG"), (Severities, "MAJOR")}

  /** `n` issues of one second. */
  function InOneSecond(n: nat, second: int): (all: seq<Issue>)
    ensures |all| == n
    ensures forall k | 0 <= k < n :: all[k] == Issue(seq(k + 1, _ => 'k'), second, SAMPLE_TAGS)
  {
    seq(n, k requires k >= 0 => Issue(seq(k + 1, _ => 'k'), second, SAMPLE_TAGS))
  }

  lemma OneSecondIsPlain(n: nat, second: int)
    ensures SingleValued(InOneSecond(n, second)) && DistinctKeys(InOneSecond(n, second))
  {
    var all := InOneSecond(n, second);
    forall a, b | 0 <= a < b < n ensures all[a].key != all[b].key {
      assert |all[a].key| == a + 1 && |all[b].key| == b + 1;
    }
  }

  lemma SampleIsPlain(n: nat)
    ensures SingleValued(OneEachSecond(n)) && DistinctKeys(OneEachSecond(n))
  {
    var all := OneEachSecond(n);
    forall a, b | 0 <= a < b < n ensures all[a].key != all[b].key {
      assert |all[a].key| == a + 1 && |all[b].key| == b + 1;
    }
  }

  lemma {:induction false} FewInOneSecond(n: nat, k: nat, second: int)
    requires k <= n
    ensures |Select(OneEachSecond(n)[..k], Query(Some(second), Some(second + 1), []))|
            <= if DEFAULT_RANGE_START <= second < DEFAULT_RANGE_START + k then 1 else 0
  {
    if k != 0 {
      FewInOneSecond(n, k - 1, second);
      assert OneEachSecond(n)[..k][..k - 1] == OneEachSecond(n)[..k - 1];
    }
  }

  lemma SampleIsSpread(n: nat)
    ensures NoOverfullSecond(OneEachSecond(n))
  {
    var all := OneEachSecond(n);
    assert all[..n] == all;
    forall second: int ensures |Select(all, Query(Some(second), Some(second + 1), []))| <= RESULT_WINDOW_LIMIT {
      FewInOneSecond(n, n, second);
    }
  }

  lemma SampleHasTypes(n: nat, now: int)
    requires 0 < n
    ensures PlainServer(OneEachSecond(n), now).facet(0, QueryOf(ROOT_WINDOW, []), Types) != Buckets([])
  {
    var all, q := OneEachSecond(n), QueryOf(ROOT_WINDOW, []);
    SelectMembers(all, q);
    assert all[0] in Select(all, q);
    forall i | i in Select(all, q) ensures exists v :: v != "" && (Types, v) in i.tags {
      assert (Types, "BUG") in i.tags;
    }
    assert AllValued(Select(all, q), Types);
  }

  lemma SampleIsInRange(n: nat, now: int)
    requires DEFAULT_RANGE_START + n <= now / 1000
    requires now / 1000 + 1 - DEFAULT_RANGE_START <= LONGEST_DURATION
    ensures WithinDefaultRange(PlainServer(OneEachSecond(n), now), OneEachSecond(n))
  {
    assert forall tick: nat :: PlainServer(OneEachSecond(n), now).now(tick) == now;
    LevelsStayBelowBackstop(now / 1000 + 1 - DEFAULT_RANGE_START);
  }

  lemma SampleIsSettled(n: nat, now: int)
    requires DEFAULT_RANGE_START < now / 1000
    ensures Settled(PlainServer(OneEachSecond(n), now), OneEachSecond(n))
    ensures DatesAnswer(PlainServer(OneEachSecond(n), now), OneEachSecond(n))
  {
    SampleIsPlain(n);
    HonestServersExist(OneEachSecond(n), now);
  }

  /**
   * Every assumption of the exactness results holds together, facets included, of
   * collections of any size, those past the result limit included.
   */
  lemma SlicedCollectionsExist(n: nat, now: int)
    requires 0 < n && DEFAULT_RANGE_START + n <= now / 1000
    requires now / 1000 + 1 - DEFAULT_RANGE_START <= LONGEST_DURATION
    ensures exists server, all ::
              && |all| == n && Settled(server, all) && DatesAnswer(server, all)
              && WithinDefaultRange(server, all) && NoOverfullSecond(all)
              && server.facet(0, QueryOf(ROOT_WINDOW, []), Types) != Buckets([])
  {
    SampleIsSettled(n, now);
    SampleIsInRange(n, now);
    SampleIsSpread(n);
    SampleHasTypes(n, now);
  }
}
