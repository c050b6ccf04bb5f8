/** Half-open creation-date windows, facet filters, and the selections they make. */
module Windows {
  import opened Wrappers

  datatype Facet = Types | Severities | ImpactSoftwareQualities | ImpactSeverities | Rules | Directories | Files

  type Filter = (Facet, string)

  /** An issue: its key ("" when the response gave none), creation second, and facet values. */
  datatype Issue = Issue(key: string, created: int, tags: set<Filter>)

  /** Half of the longest duration the source can express, in whole seconds. */
  const HALF_LONGEST_DURATION := 4611686018

  /** Half of a span; the source's durations saturate. */
  function Half(width: int): (half: int)
    ensures 2 <= width ==> 1 <= half < width
  {
    if width / 2 <= HALF_LONGEST_DURATION then width / 2 else HALF_LONGEST_DURATION
  }

  /** [start, end) in seconds; an open edge sends no bound. */
  datatype IssueWindow = IssueWindow(start: int, end: int, openStart: bool, openEnd: bool) {
    predicate Splittable() {
      end - start > 1
    }

    /** The second-aligned seam. */
    function Mid(): (seam: int)
      requires Splittable()
      ensures start < seam < end
    {
      start + Half(end - start)
    }

    /** A closed window must not be of zero width. */
    predicate SafeToRequest() {
      openStart || openEnd || start != end
    }

    predicate Dated() {
      !openStart || !openEnd
    }

    function After(): (bound: Option<int>) {
      if openStart then None else Some(start)
    }

    function Before(): (bound: Option<int>) {
      if openEnd then None else Some(end)
    }

    predicate Holds(second: int) {
      (openStart || start <= second) && (openEnd || second < end)
    }
  }

  const ROOT_WINDOW := IssueWindow(0, 0, true, true)

  function SplitWindow(w: IssueWindow): (halves: (IssueWindow, IssueWindow))
    requires w.Splittable()
  {
    (IssueWindow(w.start, w.Mid(), w.openStart, false), IssueWindow(w.Mid(), w.end, false, w.openEnd))
  }

  /** Every second a window holds lies in exactly one of its halves, and no other second in either. */
  lemma SplitIsPartition(w: IssueWindow, second: int)
    requires w.Splittable()
    ensures w.Holds(second) <==> SplitWindow(w).0.Holds(second) || SplitWindow(w).1.Holds(second)
    ensures !(SplitWindow(w).0.Holds(second) && SplitWindow(w).1.Holds(second))
  {
  }

  // ---------------------------------------------------------------------------
  // Selections

  /** What one request selects: the two date parameters and the facet filters. */
  datatype Query = Query(after: Option<int>, before: Option<int>, filters: seq<Filter>)

  /** Filters with an empty value are not sent. */
  function QueryOf(w: IssueWindow, filters: seq<Filter>): (q: Query) {
    Query(w.After(), w.Before(), Sent(filters))
  }

  function Sent(filters: seq<Filter>): (sent: seq<Filter>) {
    if filters == [] then []
    else Sent(filters[..|filters| - 1]) + if filters[|filters| - 1].1 == "" then [] else [filters[|filters| - 1]]
  }

  predicate Selects(q: Query, i: Issue) {
    && (q.after.Some? ==> q.after.value <= i.created)
    && (q.before.Some? ==> i.created < q.before.value)
    && (forall f | f in q.filters :: f in i.tags)
  }

  /** The issues of `all` a request selects, in the server's order. */
  function Select(all: seq<Issue>, q: Query): (s: seq<Issue>) {
    if all == [] then []
    else Select(all[..|all| - 1], q) + if Selects(q, all[|all| - 1]) then [all[|all| - 1]] else []
  }

  lemma {:induction false} SelectMembers(all: seq<Issue>, q: Query)
    ensures |Select(all, q)| <= |all|
    ensures forall i :: i in Select(all, q) <==> i in all && Selects(q, i)
  {
    if all != [] {
      SelectMembers(all[..|all| - 1], q);
      assert all == all[..|all| - 1] + [all[|all| - 1]];
    }
  }

  lemma {:induction false} SelectMultiplicity(all: seq<Issue>, q: Query, i: Issue)
    ensures multiset(Select(all, q))[i] == if Selects(q, i) then multiset(all)[i] else 0
  {
    if all != [] {
      var init, last := all[..|all| - 1], all[|all| - 1];
      assert all == init + [last];
      SelectMultiplicity(init, q, i);
    }
  }

  lemma {:induction false} SelectAll(all: seq<Issue>, q: Query)
    requires forall i | i in all :: Selects(q, i)
    ensures Select(all, q) == all
  {
    if all != [] {
      SelectAll(all[..|all| - 1], q);
      assert all[|all| - 1] in all;
      assert all == all[..|all| - 1] + [all[|all| - 1]];
    }
  }

  /** No two issues share a key, except that keyless ones are not told apart. */
  ghost predicate DistinctKeys(issues: seq<Issue>) {
    forall a, b | 0 <= a < b < |issues| && issues[a].key == issues[b].key :: issues[a].key == ""
  }

  lemma {:induction false} SelectKeepsKeysDistinct(all: seq<Issue>, q: Query)
    requires DistinctKeys(all)
    ensures DistinctKeys(Select(all, q))
  {
    if all != [] {
      var init, last := all[..|all| - 1], all[|all| - 1];
      SelectKeepsKeysDistinct(init, q);
      SelectMembers(init, q);
      forall i | i in Select(init, q) && i.key == last.key ensures i.key == "" {
        var a :| 0 <= a < |init| && init[a] == i;
        assert all[a] == i && all[|all| - 1] == last;
      }
    }
  }

  lemma SameKeySameIssue(all: seq<Issue>, i: Issue, j: Issue)
    requires DistinctKeys(all) && i in all && j in all
    requires i.key == j.key != ""
    ensures i == j
  {
    var a :| 0 <= a < |all| && all[a] == i;
    var b :| 0 <= b < |all| && all[b] == j;
    if a < b {
      assert all[a].key == all[b].key;
    } else if b < a {
      assert all[b].key == all[a].key;
    }
  }

  /** Splitting a window loses no issue of a collection and repeats none. */
  lemma SplitKeepsSelection(all: seq<Issue>, w: IssueWindow)
    requires w.Splittable()
    ensures multiset(Select(all, QueryOf(w, []))) ==
            multiset(Select(all, QueryOf(SplitWindow(w).0, [])) + Select(all, QueryOf(SplitWindow(w).1, [])))
  {
    var (left, right) := SplitWindow(w);
    var q, ql, qr := QueryOf(w, []), QueryOf(left, []), QueryOf(right, []);
    forall i ensures multiset(Select(all, q))[i] == multiset(Select(all, ql) + Select(all, qr))[i] {
      SelectMultiplicity(all, q, i);
      SelectMultiplicity(all, ql, i);
      SelectMultiplicity(all, qr, i);
      SplitIsPartition(w, i.created);
      assert Selects(q, i) <==> w.Holds(i.created);
      assert Selects(ql, i) <==> left.Holds(i.created);
      assert Selects(qr, i) <==> right.Holds(i.created);
    }
  }

  /** Two windows that agree on a collection select the same issues of it. */
  lemma {:induction false} SameSelection(all: seq<Issue>, q: Query, r: Query)
    requires forall i | i in all :: Selects(q, i) <==> Selects(r, i)
    ensures Select(all, q) == Select(all, r)
  {
    if all != [] {
      forall i | i in all[..|all| - 1] ensures Selects(q, i) <==> Selects(r, i) {
        assert i in all;
      }
      SameSelection(all[..|all| - 1], q, r);
      assert all[|all| - 1] in all;
    }
  }

  // ---------------------------------------------------------------------------
  // Facet cells

  datatype FacetValue = FacetValue(val: string, count: nat)

  function SumCounts(values: seq<FacetValue>): (total: nat) {
    if values == [] then 0 else SumCounts(values[..|values| - 1]) + values[|values| - 1].count
  }

  function CellQuery(q: Query, f: Facet, val: string): (cell: Query) {
    q.(filters := q.filters + if val == "" then [] else [(f, val)])
  }

  /** The cells of the given facet values, one after another. */
  function Cells(all: seq<Issue>, q: Query, f: Facet, values: seq<FacetValue>): (issues: seq<Issue>) {
    if values == [] then []
    else Cells(all, q, f, values[..|values| - 1]) + Select(all, CellQuery(q, f, values[|values| - 1].val))
  }

  /** Each issue carries at most one value per facet. */
  ghost predicate SingleValued(all: seq<Issue>) {
    forall i, f, v, w | i in all && (f, v) in i.tags && (f, w) in i.tags :: v == w
  }

  /** Distinct non-empty values, each counted exactly. */
  ghost predicate ExactBuckets(all: seq<Issue>, q: Query, f: Facet, values: seq<FacetValue>) {
    && (forall a, b | 0 <= a < b < |values| :: values[a].val != values[b].val)
    && (forall a | 0 <= a < |values| ::
          values[a].val != "" && values[a].count == |Select(all, CellQuery(q, f, values[a].val))|)
  }

  ghost predicate Bucketed(i: Issue, f: Facet, values: seq<FacetValue>) {
    exists a :: 0 <= a < |values| && (f, values[a].val) in i.tags
  }

  lemma CellNarrows(q: Query, f: Facet, val: string, i: Issue)
    requires val != ""
    ensures Selects(CellQuery(q, f, val), i) <==> Selects(q, i) && (f, val) in i.tags
  {
    var cell := CellQuery(q, f, val);
    assert (f, val) in cell.filters;
    assert forall g | g in q.filters :: g in cell.filters;
  }

  lemma BucketedByLast(i: Issue, f: Facet, values: seq<FacetValue>)
    requires values != []
    ensures Bucketed(i, f, values)
            <==> Bucketed(i, f, values[..|values| - 1]) || (f, values[|values| - 1].val) in i.tags
  {
    assert forall a | 0 <= a < |values| - 1 :: values[..|values| - 1][a] == values[a];
  }

  lemma {:induction false} CellsAreBuckets(all: seq<Issue>, q: Query, f: Facet, values: seq<FacetValue>)
    requires ExactBuckets(all, q, f, values)
    ensures |Cells(all, q, f, values)| == SumCounts(values)
    ensures forall i | i in Cells(all, q, f, values) :: i in all && Selects(q, i) && Bucketed(i, f, values)
  {
    if values != [] {
      var init, last := values[..|values| - 1], values[|values| - 1];
      CellsAreBuckets(all, q, f, init);
      SelectMembers(all, CellQuery(q, f, last.val));
      forall i | i in Cells(all, q, f, values) ensures i in all && Selects(q, i) && Bucketed(i, f, values) {
        BucketedByLast(i, f, values);
        CellNarrows(q, f, last.val, i);
      }
    }
  }

  /** With one value per issue, an issue of the selection is in as many cells as it has copies, or in none. */
  lemma {:induction false} CellsMultiplicity(all: seq<Issue>, q: Query, f: Facet, values: seq<FacetValue>, i: Issue)
    requires SingleValued(all) && ExactBuckets(all, q, f, values)
    ensures multiset(Cells(all, q, f, values))[i]
            == if Bucketed(i, f, values) then multiset(Select(all, q))[i] else 0
  {
    SelectMultiplicity(all, q, i);
    if values != [] {
      var init, last := values[..|values| - 1], values[|values| - 1];
      CellsMultiplicity(all, q, f, init, i);
      SelectMultiplicity(all, CellQuery(q, f, last.val), i);
      CellNarrows(q, f, last.val, i);
      BucketedByLast(i, f, values);
      if i in all {
        BucketsAreDisjoint(all, f, values, i);
      }
    }
  }

  lemma BucketsAreDisjoint(all: seq<Issue>, f: Facet, values: seq<FacetValue>, i: Issue)
    requires SingleValued(all) && i in all && values != []
    requires forall a, b | 0 <= a < b < |values| :: values[a].val != values[b].val
    ensures !(Bucketed(i, f, values[..|values| - 1]) && (f, values[|values| - 1].val) in i.tags)
  {
    assert forall a | 0 <= a < |values| - 1 :: values[..|values| - 1][a] == values[a];
  }

  /**
   * The pigeonhole behind facetCoversCell: exact disjoint buckets whose counts
   * reach the size of the selection hold every issue of it, exactly once.
   */
  lemma CoveringBucketsAreTheSelection(all: seq<Issue>, q: Query, f: Facet, values: seq<FacetValue>)
    requires SingleValued(all) && ExactBuckets(all, q, f, values)
    ensures multiset(Cells(all, q, f, values)) <= multiset(Select(all, q))
    ensures SumCounts(values) <= |Select(all, q)|
    ensures SumCounts(values) == |Select(all, q)|
            <==> multiset(Cells(all, q, f, values)) == multiset(Select(all, q))
    ensures (forall i | i in Select(all, q) :: Bucketed(i, f, values)) ==> SumCounts(values) == |Select(all, q)|
  {
    var cells, selection := Cells(all, q, f, values), Select(all, q);
    CellsAreBuckets(all, q, f, values);
    forall i
      ensures multiset(cells)[i] <= multiset(selection)[i]
      ensures Bucketed(i, f, values) ==> multiset(cells)[i] == multiset(selection)[i]
    {
      CellsMultiplicity(all, q, f, values, i);
    }
    SubMultisetSize(multiset(cells), multiset(selection));
    if forall i | i in selection :: Bucketed(i, f, values) {
      forall i ensures multiset(cells)[i] == multiset(selection)[i] {
        if i !in selection {
          assert multiset(selection)[i] == 0;
        }
      }
      assert multiset(cells) == multiset(selection);
    }
  }

  lemma SubMultisetSize<T>(small: multiset<T>, large: multiset<T>)
    requires small <= large
    ensures |small| <= |large|
    ensures |small| == |large| <==> small == large
  {
    assert large == small + (large - small);
    if |small| == |large| {
      assert large - small == multiset{};
    }
  }
}
