/** Which collections the facet cascade can fetch whole, and servers whose facets let it. */
module Facets {
  import opened Wrappers
  import opened PageSizes
  import opened RawClient
  import opened Windows
  import opened IssueServer

  /**
   * Facet requests are answered, with every value there is when every issue has one;
   * rules, directories and files only as long as there are at most 100 values.
   */
  ghost predicate FacetsAnswer(server: Server, all: seq<Issue>) {
    forall tick: nat, q: Query, f: Facet :: IsComplete(all, q, f, server.facet(tick, q, f))
  }

  ghost predicate IsComplete(all: seq<Issue>, q: Query, f: Facet, reply: FacetReply) {
    && reply.Buckets?
    && (Partitions(all, q, f) ==> forall v | v in ValuesOf(Select(all, q), f) :: HasValue(reply.values, v))
  }

  /** Every issue selected has a value for the facet, and the values fit into one answer. */
  ghost predicate Partitions(all: seq<Issue>, q: Query, f: Facet) {
    && AllValued(Select(all, q), f)
    && (IsTaxonomyFacet(f) || |ValuesOf(Select(all, q), f)| <= 100)
  }

  /** The selection fits under the ceiling, or the first facet parts it into cells the others resolve. */
  ghost predicate Resolves(all: seq<Issue>, q: Query, order: seq<Facet>)
    decreases |order|
  {
    || |Select(all, q)| <= RESULT_WINDOW_LIMIT
    || (order != [] && Partitions(all, q, order[0]) && |ValuesOf(Select(all, q), order[0])| <= 100
        && forall v | v in ValuesOf(Select(all, q), order[0]) ::
             Resolves(all, CellQuery(q, order[0], v), order[1..]))
  }

  /** Types and severities part the selection into cells that rules, directories and files resolve. */
  ghost predicate TaxonomyResolves(all: seq<Issue>, q: Query, types: Facet, severities: Facet) {
    && Partitions(all, q, types)
    && forall t | t in ValuesOf(Select(all, q), types) :: TypeResolves(all, CellQuery(q, types, t), severities)
  }

  ghost predicate TypeResolves(all: seq<Issue>, cell: Query, severities: Facet) {
    && Partitions(all, cell, severities)
    && forall v | v in ValuesOf(Select(all, cell), severities) ::
         Resolves(all, CellQuery(cell, severities, v), [Rules, Directories, Files])
  }

  function OneSecondQuery(second: int): (q: Query) {
    Query(Some(second), Some(second + 1), [])
  }

  /** Every second holds at most what the server returns, or its facets resolve it. */
  ghost predicate NoOverfullCell(all: seq<Issue>, mqr: bool) {
    forall second: int ::
      || |Select(all, OneSecondQuery(second))| <= RESULT_WINDOW_LIMIT
      || (if mqr then TaxonomyResolves(all, OneSecondQuery(second), ImpactSoftwareQualities, ImpactSeverities)
          else TaxonomyResolves(all, OneSecondQuery(second), Types, Severities))
  }

  /** Nothing of the collection has to be given up. */
  ghost predicate Recoverable(server: Server, all: seq<Issue>) {
    NoOverfullSecond(all) || (NoOverfullCell(all, server.mqr) && FacetsAnswer(server, all))
  }

  // ---------------------------------------------------------------------------
  // What a complete answer is

  ghost function Vals(values: seq<FacetValue>): (vals: set<string>)
    ensures forall v :: v in vals <==> HasValue(values, v)
  {
    set a | 0 <= a < |values| :: values[a].val
  }

  lemma {:induction false} DistinctValsCount(values: seq<FacetValue>)
    requires forall a, b | 0 <= a < b < |values| :: values[a].val != values[b].val
    ensures |Vals(values)| == |values|
  {
    if values != [] {
      var init, last := values[..|values| - 1], values[|values| - 1];
      DistinctValsCount(init);
      HasValueAppend(init, last);
      assert values == init + [last];
      assert Vals(values) == Vals(init) + {last.val};
      assert !HasValue(init, last.val);
    }
  }

  /** Exact buckets with a count each are values some selected issue has. */
  lemma BucketsAreValues(all: seq<Issue>, q: Query, f: Facet, values: seq<FacetValue>)
    requires ExactBuckets(all, q, f, values) && (forall v | v in values :: 0 < v.count)
    ensures forall v | v in values :: v.val in ValuesOf(Select(all, q), f)
    ensures |values| <= |ValuesOf(Select(all, q), f)|
  {
    forall a | 0 <= a < |values| ensures values[a].val in ValuesOf(Select(all, q), f) {
      var v := values[a];
      assert v in values;
      var cell := Select(all, CellQuery(q, f, v.val));
      SelectMembers(all, CellQuery(q, f, v.val));
      SelectMembers(all, q);
      assert cell[0] in cell;
      CellNarrows(q, f, v.val, cell[0]);
      assert cell[0] in Select(all, q) && (f, v.val) in cell[0].tags;
    }
    DistinctValsCount(values);
    assert Vals(values) <= ValuesOf(Select(all, q), f);
    SubsetSize(Vals(values), ValuesOf(Select(all, q), f));
  }

  lemma SubsetSize<T>(a: set<T>, b: set<T>)
    requires a <= b
    ensures |a| <= |b|
  {
    assert b == a + (b - a);
  }

  /** Complete exact buckets account for the whole selection. */
  lemma CompleteBucketsCover(all: seq<Issue>, q: Query, f: Facet, values: seq<FacetValue>)
    requires SingleValued(all) && ExactBuckets(all, q, f, values) && AllValued(Select(all, q), f)
    requires forall v | v in ValuesOf(Select(all, q), f) :: HasValue(values, v)
    ensures SumCounts(values) == |Select(all, q)|
    ensures Select(all, q) != [] ==> values != []
  {
    forall i | i in Select(all, q) ensures Bucketed(i, f, values) {
      var v :| v != "" && (f, v) in i.tags;
      assert HasValue(values, v);
    }
    CoveringBucketsAreTheSelection(all, q, f, values);
    if Select(all, q) != [] {
      assert Bucketed(Select(all, q)[0], f, values);
    }
  }

  // ---------------------------------------------------------------------------
  // Overfull seconds that are recovered exist

  function Tagged(n: nat, from: nat, second: int, tags: set<Filter>): (issues: seq<Issue>)
    ensures |issues| == n
    ensures forall k | 0 <= k < n :: issues[k] == Issue(seq(from + k + 1, _ => 'k'), second, tags)
  {
    seq(n, k requires k >= 0 => Issue(seq(from + k + 1, _ => 'k'), second, tags))
  }

  const BUG_TAGS: set<Filter> := {(Types, "BUG"), (Severities, "MAJOR")}
  const SMELL_TAGS: set<Filter> := {(Types, "CODE_SMELL"), (Severities, "MAJOR")}

  /** Bugs and code smells of one second. */
  function Mixed(bugs: nat, smells: nat, second: int): (all: seq<Issue>)
    ensures |all| == bugs + smells
  {
    Tagged(bugs, 0, second, BUG_TAGS) + Tagged(smells, bugs, second, SMELL_TAGS)
  }

  lemma MixedIsPlain(bugs: nat, smells: nat, second: int)
    ensures SingleValued(Mixed(bugs, smells, second)) && DistinctKeys(Mixed(bugs, smells, second))
    ensures forall i | i in Mixed(bugs, smells, second) ::
              i.created == second && (i.tags == BUG_TAGS || i.tags == SMELL_TAGS)
  {
    var all := Mixed(bugs, smells, second);
    forall k | 0 <= k < |all|
      ensures |all[k].key| == k + 1 && all[k].created == second
      ensures all[k].tags == BUG_TAGS || all[k].tags == SMELL_TAGS
    {
    }
    forall a, b | 0 <= a < b < |all| ensures all[a].key != all[b].key {
      assert |all[a].key| == a + 1 && |all[b].key| == b + 1;
    }
  }

  lemma {:induction false} SelectConcat(a: seq<Issue>, b: seq<Issue>, q: Query)
    ensures Select(a + b, q) == Select(a, q) + Select(b, q)
  {
    if b == [] {
      assert a + b == a;
    } else {
      SelectConcat(a, b[..|b| - 1], q);
      assert (a + b)[..|a + b| - 1] == a + b[..|b| - 1];
    }
  }

  lemma {:induction false} SelectNone(all: seq<Issue>, q: Query)
    requires forall i | i in all :: !Selects(q, i)
    ensures Select(all, q) == []
  {
    if all != [] {
      SelectNone(all[..|all| - 1], q);
      assert all[|all| - 1] in all;
    }
  }

  lemma OtherTypeIsNotSelected(all: seq<Issue>, q: Query, t: string)
    requires (Types, t) in q.filters && forall i | i in all :: (Types, t) !in i.tags
    ensures Select(all, q) == []
  {
    SelectNone(all, q);
  }

  /** A request that asks for a type gets the issues of that type at most. */
  lemma OneTypeFits(bugs: nat, smells: nat, second: int, q: Query, t: string)
    requires bugs <= RESULT_WINDOW_LIMIT && smells <= RESULT_WINDOW_LIMIT && (Types, t) in q.filters
    ensures |Select(Mixed(bugs, smells, second), q)| <= RESULT_WINDOW_LIMIT
  {
    hide Select, Selects;
    var a, b := Tagged(bugs, 0, second, BUG_TAGS), Tagged(smells, bugs, second, SMELL_TAGS);
    SelectConcat(a, b, q);
    if t == "BUG" {
      OtherTypeIsNotSelected(b, q, t);
    } else {
      OtherTypeIsNotSelected(a, q, t);
    }
    SelectMembers(a, q);
    SelectMembers(b, q);
  }

  lemma MixedIsRecoverable(bugs: nat, smells: nat, second: int)
    requires bugs <= RESULT_WINDOW_LIMIT && smells <= RESULT_WINDOW_LIMIT
    ensures NoOverfullCell(Mixed(bugs, smells, second), false)
  {
    var all := Mixed(bugs, smells, second);
    MixedIsPlain(bugs, smells, second);
    forall at: int ensures TaxonomyResolves(all, OneSecondQuery(at), Types, Severities) {
      var q := OneSecondQuery(at);
      MixedIsValued(bugs, smells, second, q);
      forall t | t in ValuesOf(Select(all, q), Types) ensures TypeResolves(all, CellQuery(q, Types, t), Severities) {
        var cell := CellQuery(q, Types, t);
        MixedIsValued(bugs, smells, second, cell);
        forall v | v in ValuesOf(Select(all, cell), Severities)
          ensures Resolves(all, CellQuery(cell, Severities, v), [Rules, Directories, Files])
        {
          assert (Types, t) in CellQuery(cell, Severities, v).filters by {
            assert cell.filters == q.filters + [(Types, t)];
          }
          OneTypeFits(bugs, smells, second, CellQuery(cell, Severities, v), t);
        }
      }
    }
  }

  lemma MixedIsValued(bugs: nat, smells: nat, second: int, q: Query)
    ensures AllValued(Select(Mixed(bugs, smells, second), q), Types)
    ensures AllValued(Select(Mixed(bugs, smells, second), q), Severities)
  {
    var s := Select(Mixed(bugs, smells, second), q);
    SelectMembers(Mixed(bugs, smells, second), q);
    MixedIsPlain(bugs, smells, second);
    forall i | i in s ensures exists v :: v != "" && (Types, v) in i.tags {
      assert (Types, "BUG") in i.tags || (Types, "CODE_SMELL") in i.tags;
    }
    forall i | i in s ensures exists v :: v != "" && (Severities, v) in i.tags {
      assert (Severities, "MAJOR") in i.tags;
    }
  }

  lemma PlainServerAnswers(all: seq<Issue>, now: int)
    ensures FacetsAnswer(PlainServer(all, now), all) && Unfailing(PlainServer(all, now))
  {
    var server := PlainServer(all, now);
    forall tick: nat, q: Query, f: Facet ensures IsComplete(all, q, f, server.facet(tick, q, f)) {
      assert server.facet(tick, q, f) == BucketsOf(all, q, f);
    }
  }

  /** The assumptions of a fetch that loses nothing hold together of one overfull second, up to twice the ceiling. */
  lemma RecoverableSecondsExist(bugs: nat, smells: nat, second: int, now: int)
    requires bugs <= RESULT_WINDOW_LIMIT && smells <= RESULT_WINDOW_LIMIT && DEFAULT_RANGE_START < now / 1000
    ensures exists server: Server, all: seq<Issue> ::
              && |all| == bugs + smells && (forall i | i in all :: i.created == second)
              && Settled(server, all) && DatesAnswer(server, all) && Unfailing(server) && Recoverable(server, all)
              && server.now(0) == now
  {
    var all := Mixed(bugs, smells, second);
    var server := PlainServer(all, now);
    MixedIsPlain(bugs, smells, second);
    MixedIsRecoverable(bugs, smells, second);
    HonestServersExist(all, now);
    PlainServerAnswers(all, now);
    assert server.now(0) == now && !server.mqr;
  }
}
