/** Truncation records, the reconciliation of a sliced walk, and their merged artefact. */
module Truncation {
  import opened Wrappers
  import opened KeyedMerge

  datatype TruncationReason =
    | PageLimitClamp | UnknownTotal | AtomicWindow | DatesIgnored | DatesRejected
    | MaxDepth | IncompleteSlice | CountDrift

  datatype Scope = Scope(task: string, projectKey: string, branch: string, detail: string) {
    /** The scope as it is printed. */
    function Label(): (text: string)
      ensures text != ""
    {
      var parts := Joined(Joined(task, Place()), if detail == "" then "" else "(" + detail + ")");
      if parts == "" then "(unattributed)" else parts
    }

    function Place(): (place: string) {
      if branch == "" then projectKey else projectKey + "@" + branch
    }

    /** The scopes sliced walks are audited under: one branch of a project. */
    predicate IsAudited() {
      task == AUDITED_TASK && projectKey != "" && branch != "" && detail == ""
    }
  }

  const AUDITED_TASK := "getProjectIssuesFull"

  function Joined(a: string, b: string): (s: string) {
    if a == "" then b else if b == "" then a else a + " " + b
  }

  function AuditScope(key: string, branch: string): (s: Scope) {
    Scope(AUDITED_TASK, key, branch, "")
  }

  lemma AuditLabel(s: Scope)
    requires s.IsAudited()
    ensures s.Label() == AUDITED_TASK + " " + (s.projectKey + "@" + s.branch)
  {
  }

  /** Of two ways to read one text as key and branch, the longer key holds the shorter one, an @, and more. */
  lemma LongerKey(p: string, b: string, q: string, c: string)
    requires p + "@" + b == q + "@" + c && |p| <= |q|
    ensures (p == q && b == c) || (p + "@" <= q && b == q[|p| + 1..] + "@" + c)
  {
    var whole := p + "@" + b;
    assert whole[..|p|] == p && whole[..|q|] == q;
    assert whole[|p| + 1..] == b && whole[|q| + 1..] == c;
    if |p| < |q| {
      assert whole[..|p| + 1] == p + "@" == q[..|p| + 1];
      assert whole == q + "@" + c;
      assert whole[|p| + 1..] == q[|p| + 1..] + "@" + c;
    }
  }

  /** When audited scopes have the same label: only for one branch, or for keys that read on into the other's branch. */
  lemma LabelDistinguishes(s: Scope, r: Scope)
    requires s.IsAudited() && r.IsAudited()
    ensures s.Label() == r.Label() <==> s == r || ReadsOn(s, r) || ReadsOn(r, s)
  {
    hide Scope.Label;
    AuditLabel(s);
    AuditLabel(r);
    var prefix, x, y := AUDITED_TASK + " ", s.projectKey + "@" + s.branch, r.projectKey + "@" + r.branch;
    if s.Label() == r.Label() {
      assert (prefix + x)[|prefix|..] == x && (prefix + y)[|prefix|..] == y;
      if |s.projectKey| <= |r.projectKey| {
        LongerKey(s.projectKey, s.branch, r.projectKey, r.branch);
      } else {
        LongerKey(r.projectKey, r.branch, s.projectKey, s.branch);
      }
    }
    if ReadsOn(s, r) {
      ReadingOnIsEqual(s, r);
    }
    if ReadsOn(r, s) {
      ReadingOnIsEqual(r, s);
    }
  }

  /** The other key is this one, an @, and the beginning of this branch; the rest follows after one more @. */
  predicate ReadsOn(s: Scope, r: Scope) {
    s.projectKey + "@" <= r.projectKey && s.branch == r.projectKey[|s.projectKey| + 1..] + "@" + r.branch
  }

  lemma ReadingOnIsEqual(s: Scope, r: Scope)
    requires ReadsOn(s, r)
    ensures s.projectKey + "@" + s.branch == r.projectKey + "@" + r.branch
  {
    assert r.projectKey == s.projectKey + "@" + r.projectKey[|s.projectKey| + 1..];
  }

  /** Branches of two projects can share a label exactly when one key begins with the other and an @. */
  lemma LabelsCollide(p: string, q: string)
    requires p != "" && q != "" && p != q
    ensures (exists b, c :: b != "" && c != "" && AuditScope(p, b).Label() == AuditScope(q, c).Label())
            <==> p + "@" <= q || q + "@" <= p
  {
    forall b, c | b != "" && c != "" && AuditScope(p, b).Label() == AuditScope(q, c).Label()
      ensures p + "@" <= q || q + "@" <= p
    {
      LabelDistinguishes(AuditScope(p, b), AuditScope(q, c));
    }
    if p + "@" <= q {
      CollidingBranches(p, q);
    } else if q + "@" <= p {
      CollidingBranches(q, p);
    }
  }

  lemma CollidingBranches(p: string, q: string)
    requires p != "" && p + "@" <= q
    ensures AuditScope(p, q[|p| + 1..] + "@" + "m").Label() == AuditScope(q, "m").Label()
  {
    hide Scope.Label;
    LabelDistinguishes(AuditScope(p, q[|p| + 1..] + "@" + "m"), AuditScope(q, "m"));
  }

  datatype TruncationRecord = TruncationRecord(
    endpoint: string, reason: TruncationReason, scope: Scope,
    total: int, totalKnown: bool, fetched: nat, lost: int, pageSize: nat, pageLimit: int,
    windowStart: Option<int>, windowEnd: Option<int>)
  {
    function Identity(): (id: RecordIdentity) {
      RecordIdentity(endpoint, reason, scope, windowStart, windowEnd)
    }
  }

  datatype RecordIdentity = RecordIdentity(endpoint: string, reason: TruncationReason, scope: Scope,
                                           windowStart: Option<int>, windowEnd: Option<int>)

  /** Records are merged only when they name the same endpoint, reason, task, branch, cell and window. */
  lemma IdentityDistinguishes(r: TruncationRecord, t: TruncationRecord)
    ensures r.Identity() == t.Identity() <==>
              && r.endpoint == t.endpoint && r.reason == t.reason
              && r.scope.task == t.scope.task && r.scope.projectKey == t.scope.projectKey
              && r.scope.branch == t.scope.branch && r.scope.detail == t.scope.detail
              && r.windowStart == t.windowStart && r.windowEnd == t.windowEnd
  {
  }

  function Max(a: int, b: int): (m: int) {
    if a < b then b else a
  }

  datatype Reconciliation = Reconciliation(
    scope: Scope, totalBefore: int, totalAfter: int, unique: int, duplicates: nat, keyless: nat,
    expectedLoss: int, windows: nat, requests: nat)
  {
    function Churn(): (change: int) {
      totalAfter - totalBefore
    }

    function Drift(): (drift: int) {
      totalBefore - (unique + expectedLoss)
    }

    /** The part of the drift outside the band [min(0, -churn), max(0, -churn)]. */
    function UnexplainedDrift(): (d: int)
      ensures d == 0 <==> -Max(0, Churn()) <= Drift() <= Max(0, -Churn())
      ensures 0 < d ==> Drift() - d == Max(0, -Churn())
      ensures d < 0 ==> Drift() - d == -Max(0, Churn())
    {
      var low, high := if 0 <= -Churn() then 0 else -Churn(), if 0 <= -Churn() then -Churn() else 0;
      if high < Drift() then Drift() - high
      else if Drift() < low then Drift() - low
      else 0
    }
  }

  /** Booking the drift an audit cannot explain leaves unaccounted at most what the source lost meanwhile. */
  lemma DriftAccounts(a: Reconciliation)
    ensures a.totalBefore - (a.unique + a.expectedLoss + Max(0, a.UnexplainedDrift())) <= Max(0, -a.Churn())
    ensures a.totalAfter == a.totalBefore && a.unique + a.expectedLoss <= a.totalBefore
            ==> a.unique + a.expectedLoss + Max(0, a.UnexplainedDrift()) == a.totalBefore
    ensures a.totalAfter == a.totalBefore && a.unique + a.expectedLoss == a.totalBefore ==> a.UnexplainedDrift() == 0
  {
  }

  function SumLost(records: seq<TruncationRecord>): (total: int) {
    if records == [] then 0 else SumLost(records[..|records| - 1]) + records[|records| - 1].lost
  }

  lemma SumLostAppend(records: seq<TruncationRecord>, rec: TruncationRecord)
    ensures SumLost(records + [rec]) == SumLost(records) + rec.lost
  {
    assert (records + [rec])[..|records + [rec]| - 1] == records;
  }

  // ---------------------------------------------------------------------------
  // The merge

  /** The larger loss wins; of equal losses the earlier record stays. */
  const WORST_LOSS: Rule<TruncationRecord, RecordIdentity> :=
    Rule((r: TruncationRecord) => r.Identity(), (n: TruncationRecord, o: TruncationRecord) => o.lost < n.lost)

  /** The more recent audit under a label wins. */
  const LATEST_AUDIT: Rule<Reconciliation, string> :=
    Rule((r: Reconciliation) => r.scope.Label(), (n: Reconciliation, o: Reconciliation) => true)

  lemma RulesAreAssociative()
    ensures Associative(WORST_LOSS) && Associative(LATEST_AUDIT)
  {
  }

  datatype TruncationState = TruncationState(
    records: seq<TruncationRecord>, reconciliations: seq<Reconciliation>, totalLost: int)

  const EMPTY_STATE := TruncationState([], [], 0)

  function Merged(base: TruncationState, incoming: TruncationState): (merged: TruncationState) {
    var records := Fold(WORST_LOSS, [], base.records + incoming.records);
    TruncationState(records, Fold(LATEST_AUDIT, [], base.reconciliations + incoming.reconciliations), SumLost(records))
  }

  method MergeTruncationStates(base: TruncationState, incoming: TruncationState) returns (merged: TruncationState)
    ensures merged == Merged(base, incoming)
  {
    var records := MergeRecords(base.records + incoming.records);
    var audits := MergeAudits(base.reconciliations + incoming.reconciliations);
    merged := TruncationState(records, audits, SumLost(records));
  }

  method MergeRecords(all: seq<TruncationRecord>) returns (merged: seq<TruncationRecord>)
    ensures merged == Fold(WORST_LOSS, [], all)
  {
    merged := MergeByKey(WORST_LOSS, all);
  }

  method MergeAudits(all: seq<Reconciliation>) returns (merged: seq<Reconciliation>)
    ensures merged == Fold(LATEST_AUDIT, [], all)
  {
    merged := MergeByKey(LATEST_AUDIT, all);
  }

  /** Merging states is associative. */
  lemma MergeIsAssociative(a: TruncationState, b: TruncationState, c: TruncationState)
    ensures Merged(Merged(a, b), c) == Merged(a, Merged(b, c))
  {
    RulesAreAssociative();
    MergeAssociative(WORST_LOSS, a.records, b.records, c.records);
    MergeAssociative(LATEST_AUDIT, a.reconciliations, b.reconciliations, c.reconciliations);
  }

  /**
   * Flushing a tracker, letting it grow, and flushing it again leaves the artefact
   * one flush at the end would have left; with nothing new, the second flush
   * changes nothing.
   */
  lemma FlushingTwiceIsFlushingOnce(file: TruncationState, early: TruncationState, later: TruncationState)
    ensures var whole := TruncationState(early.records + later.records,
                                         early.reconciliations + later.reconciliations, 0);
            Merged(Merged(file, Merged(EMPTY_STATE, early)), Merged(EMPTY_STATE, whole))
            == Merged(file, Merged(EMPTY_STATE, whole))
  {
    RulesAreAssociative();
    FlushOnce(WORST_LOSS, file.records, early.records, later.records);
    FlushOnce(LATEST_AUDIT, file.reconciliations, early.reconciliations, later.reconciliations);
  }

  lemma FlushOnce<T(!new), K>(rule: Rule<T, K>, file: seq<T>, early: seq<T>, later: seq<T>)
    requires Associative(rule)
    ensures Fold(rule, [], Fold(rule, [], file + Fold(rule, [], [] + early)) + Fold(rule, [], [] + (early + later)))
            == Fold(rule, [], file + Fold(rule, [], [] + (early + later)))
  {
    var none: seq<T> := [];
    assert none + early == early && none + (early + later) == early + later;
    var kept := Fold(rule, none, file);
    var flushed := Fold(rule, none, file + Fold(rule, none, early));
    MergeLast(rule, file, early);
    FoldConcat(rule, none, file, early);
    assert flushed == Fold(rule, kept, early);
    MergeLast(rule, flushed, early + later);
    FoldConcat(rule, none, flushed, early + later);
    MergeFirst(rule, file + early, early + later);
    MergeLast(rule, file, early + later);
    calc {
      Fold(rule, none, flushed + (early + later));
      { MergeLast(rule, file, early); }
      Fold(rule, none, Fold(rule, none, file + early) + (early + later));
      Fold(rule, none, (file + early) + (early + later));
      { FoldConcat(rule, none, file + early, early + later); }
      Fold(rule, Fold(rule, kept, early), early + later);
      { FoldConcat(rule, Fold(rule, kept, early), early, later); }
      Fold(rule, Fold(rule, Fold(rule, kept, early), early), later);
      { FoldAgain(rule, kept, early); }
      Fold(rule, Fold(rule, kept, early), later);
      { FoldConcat(rule, kept, early, later); }
      Fold(rule, kept, early + later);
      { FoldConcat(rule, none, file, early + later); }
      Fold(rule, none, file + (early + later));
    }
  }

  // ---------------------------------------------------------------------------
  // What the merged records are

  /** The identities of a list, in the order they first appear. */
  function FirstSeen(records: seq<TruncationRecord>): (ids: seq<RecordIdentity>) {
    if records == [] then []
    else
      var init := FirstSeen(records[..|records| - 1]);
      var id := records[|records| - 1].Identity();
      if id in init then init else init + [id]
  }

  /** The first record of an identity with the largest loss. */
  function WorstOf(records: seq<TruncationRecord>, id: RecordIdentity): (worst: Option<TruncationRecord>) {
    if records == [] then None
    else
      var worst, last := WorstOf(records[..|records| - 1], id), records[|records| - 1];
      if last.Identity() == id && (worst.None? || worst.value.lost < last.lost) then Some(last) else worst
  }

  /** `k` is the first position holding the largest loss of `id`. */
  ghost predicate IsFirstWorst(records: seq<TruncationRecord>, id: RecordIdentity, k: int) {
    && 0 <= k < |records| && records[k].Identity() == id
    && (forall j | 0 <= j < |records| && records[j].Identity() == id :: records[j].lost <= records[k].lost)
    && (forall j | 0 <= j < k && records[j].Identity() == id :: records[j].lost < records[k].lost)
  }

  lemma {:induction false} WorstOfIsFirstWorst(records: seq<TruncationRecord>, id: RecordIdentity)
    ensures WorstOf(records, id).None? <==> forall r | r in records :: r.Identity() != id
    ensures WorstOf(records, id).Some? ==>
              exists k :: IsFirstWorst(records, id, k) && records[k] == WorstOf(records, id).value
  {
    if records != [] {
      var init, last := records[..|records| - 1], records[|records| - 1];
      WorstOfIsFirstWorst(init, id);
      assert records == init + [last];
      if WorstOf(records, id) == WorstOf(init, id) {
        if WorstOf(init, id).Some? {
          var k :| IsFirstWorst(init, id, k) && init[k] == WorstOf(init, id).value;
          assert IsFirstWorst(records, id, k);
        }
      } else {
        forall j | 0 <= j < |init| && init[j].Identity() == id ensures init[j].lost < last.lost {
          assert init[j] in init;
        }
        assert IsFirstWorst(records, id, |records| - 1);
      }
    }
  }

  /** A merged list has one record per identity, in first-seen order: the first of its worst ones. */
  lemma {:induction false} MergedRecordsAreTheWorst(records: seq<TruncationRecord>)
    ensures var merged := Fold(WORST_LOSS, [], records);
            && |merged| == |FirstSeen(records)|
            && (forall a | 0 <= a < |merged| ::
                  && merged[a].Identity() == FirstSeen(records)[a]
                  && WorstOf(records, FirstSeen(records)[a]) == Some(merged[a]))
    ensures forall id :: id in FirstSeen(records) <==> WorstOf(records, id).Some?
  {
    if records != [] {
      var init, last := records[..|records| - 1], records[|records| - 1];
      MergedRecordsAreTheWorst(init);
      var before := Fold(WORST_LOSS, [], init);
      var at := IndexOf(WORST_LOSS, before, last.Identity());
      FoldKeepsKeysDistinct(WORST_LOSS, [], init);
      assert at < |before| <==> last.Identity() in FirstSeen(init) by {
        forall a | 0 <= a < |before| ensures WORST_LOSS.key(before[a]) == FirstSeen(init)[a] {
        }
      }
      forall a | 0 <= a < |before| && a != at ensures before[a].Identity() != last.Identity() {
        assert WORST_LOSS.key(before[a]) == before[a].Identity();
        if at < a {
          assert WORST_LOSS.key(before[at]) != WORST_LOSS.key(before[a]);
        }
      }
    }
  }

  // ---------------------------------------------------------------------------
  // Totals

  function Without(records: seq<TruncationRecord>, k: nat): (rest: seq<TruncationRecord>)
    requires k < |records|
  {
    records[..k] + records[k + 1..]
  }

  lemma {:induction false} SumLostWithout(records: seq<TruncationRecord>, k: nat)
    requires k < |records|
    ensures SumLost(records) == SumLost(Without(records, k)) + records[k].lost
  {
    var init, last := records[..|records| - 1], records[|records| - 1];
    if k == |records| - 1 {
      assert Without(records, k) == init;
    } else {
      SumLostWithout(init, k);
      assert Without(records, k) == Without(init, k) + [last];
      SumLostAppend(Without(init, k), last);
    }
  }

  lemma WithoutKeepsOthers(records: seq<TruncationRecord>, k: nat)
    requires k < |records| && DistinctKeys(WORST_LOSS, records)
    ensures DistinctKeys(WORST_LOSS, Without(records, k))
    ensures forall r | r in Without(records, k) :: r in records
    ensures forall r | r in records && r.Identity() != records[k].Identity() :: r in Without(records, k)
  {
    var rest := Without(records, k);
    forall a, b | 0 <= a < b < |rest| ensures WORST_LOSS.key(rest[a]) != WORST_LOSS.key(rest[b]) {
      var a', b' := if a < k then a else a + 1, if b < k then b else b + 1;
      assert WORST_LOSS.key(records[a']) != WORST_LOSS.key(records[b']);
    }
    forall r | r in records && r.Identity() != records[k].Identity() ensures r in rest {
      var j :| 0 <= j < |records| && records[j] == r;
      assert rest[if j < k then j else j - 1] == r;
    }
  }

  ghost predicate Covers(large: seq<TruncationRecord>, r: TruncationRecord) {
    exists l :: l in large && l.Identity() == r.Identity() && r.lost <= l.lost
  }

  /**
   * A list with distinct identities that matches or exceeds another's loss on each of
   * its identities totals no less.
   */
  lemma {:induction false} DominatedTotal(large: seq<TruncationRecord>, small: seq<TruncationRecord>)
    requires DistinctKeys(WORST_LOSS, large) && DistinctKeys(WORST_LOSS, small)
    requires forall r | r in large :: 0 <= r.lost
    requires forall r | r in small :: Covers(large, r)
    ensures SumLost(small) <= SumLost(large)
    decreases |small|
  {
    if small == [] {
      SumLostNonNegative(large);
    } else {
      var init, last := small[..|small| - 1], small[|small| - 1];
      assert last in small;
      var l :| l in large && l.Identity() == last.Identity() && last.lost <= l.lost;
      var k :| 0 <= k < |large| && large[k] == l;
      SumLostWithout(large, k);
      WithoutKeepsOthers(large, k);
      forall r | r in init ensures Covers(Without(large, k), r) {
        var i :| 0 <= i < |init| && init[i] == r;
        assert WORST_LOSS.key(small[i]) != WORST_LOSS.key(small[|small| - 1]);
        assert r in small && Covers(large, r);
      }
      DominatedTotal(Without(large, k), init);
    }
  }

  lemma {:induction false} SumLostNonNegative(records: seq<TruncationRecord>)
    requires forall r | r in records :: 0 <= r.lost
    ensures 0 <= SumLost(records)
  {
    if records != [] {
      SumLostNonNegative(records[..|records| - 1]);
    }
  }

  /**
   * Merging never talks a loss down: the merged total is at least either side's,
   * and it does not depend on which side came first.
   */
  lemma MergedTotalCoversBoth(base: TruncationState, incoming: TruncationState)
    requires forall r | r in base.records + incoming.records :: 0 <= r.lost
    ensures DistinctKeys(WORST_LOSS, base.records) ==> SumLost(base.records) <= Merged(base, incoming).totalLost
    ensures DistinctKeys(WORST_LOSS, incoming.records) ==> SumLost(incoming.records) <= Merged(base, incoming).totalLost
    ensures Merged(base, incoming).totalLost == Merged(incoming, base).totalLost
  {
    var ab, ba := base.records + incoming.records, incoming.records + base.records;
    MergeDominates(ab, base.records);
    MergeDominates(ab, incoming.records);
    MergeDominates(ab, Fold(WORST_LOSS, [], ba));
    MergeDominates(ba, Fold(WORST_LOSS, [], ab));
    MergedFromList(ab);
    MergedFromList(ba);
    FoldKeepsKeysDistinct(WORST_LOSS, [], ab);
    FoldKeepsKeysDistinct(WORST_LOSS, [], ba);
  }

  lemma MergedFromList(records: seq<TruncationRecord>)
    ensures forall r | r in Fold(WORST_LOSS, [], records) :: r in records
  {
    var merged := Fold(WORST_LOSS, [], records);
    MergedRecordsAreTheWorst(records);
    forall r | r in merged ensures r in records {
      var a :| 0 <= a < |merged| && merged[a] == r;
      WorstOfIsFirstWorst(records, FirstSeen(records)[a]);
    }
  }

  lemma MergeDominates(records: seq<TruncationRecord>, part: seq<TruncationRecord>)
    requires forall r | r in records :: 0 <= r.lost
    ensures (forall r | r in part :: r in records) && DistinctKeys(WORST_LOSS, part)
            ==> SumLost(part) <= SumLost(Fold(WORST_LOSS, [], records))
  {
    var merged := Fold(WORST_LOSS, [], records);
    if (forall r | r in part :: r in records) && DistinctKeys(WORST_LOSS, part) {
      FoldKeepsKeysDistinct(WORST_LOSS, [], records);
      MergedFromList(records);
      MergedRecordsAreTheWorst(records);
      forall r | r in part ensures Covers(merged, r) {
        WorstOfIsFirstWorst(records, r.Identity());
        var a :| 0 <= a < |merged| && FirstSeen(records)[a] == r.Identity();
        assert merged[a] in merged;
      }
      DominatedTotal(merged, part);
    }
  }

  // ---------------------------------------------------------------------------
  // When merging keeps the whole loss

  lemma SumLostReplace(records: seq<TruncationRecord>, k: nat, r: TruncationRecord)
    requires k < |records|
    ensures SumLost(records[k := r]) == SumLost(records) - records[k].lost + r.lost
  {
    SumLostWithout(records, k);
    SumLostWithout(records[k := r], k);
    assert Without(records[k := r], k) == Without(records, k);
  }

  ghost predicate NoGains(records: seq<TruncationRecord>) {
    forall k | 0 <= k < |records| :: 0 <= records[k].lost
  }

  /** Some record of this identity lost something. */
  ghost predicate Loses(records: seq<TruncationRecord>, id: RecordIdentity) {
    exists k :: 0 <= k < |records| && records[k].Identity() == id && 0 < records[k].lost
  }

  /** No two records that lost something share an identity. */
  ghost predicate LosersDistinct(records: seq<TruncationRecord>) {
    forall a, b | 0 <= a < b < |records| && records[a].Identity() == records[b].Identity() ::
      records[a].lost == 0 || records[b].lost == 0
  }

  /** One more record adds its loss unless its identity already has one. */
  lemma PutTotal(merged: seq<TruncationRecord>, r: TruncationRecord)
    requires NoGains(merged) && 0 <= r.lost
    ensures NoGains(Put(WORST_LOSS, merged, r))
    ensures var at, total := IndexOf(WORST_LOSS, merged, r.Identity()), SumLost(Put(WORST_LOSS, merged, r));
            if at == |merged| || merged[at].lost == 0 || r.lost == 0 then total == SumLost(merged) + r.lost
            else total < SumLost(merged) + r.lost
  {
    var at := IndexOf(WORST_LOSS, merged, r.Identity());
    if at == |merged| {
      SumLostAppend(merged, r);
    } else {
      SumLostReplace(merged, at, WORST_LOSS.Pick(merged[at], r));
    }
  }

  /** The merged list holds an identity's largest loss. */
  lemma MergedWorst(records: seq<TruncationRecord>, id: RecordIdentity)
    ensures var merged := Fold(WORST_LOSS, [], records);
            var at := IndexOf(WORST_LOSS, merged, id);
            WorstOf(records, id) == if at < |merged| then Some(merged[at]) else None
  {
    var merged := Fold(WORST_LOSS, [], records);
    var at := IndexOf(WORST_LOSS, merged, id);
    MergedRecordsAreTheWorst(records);
    hide Fold, WorstOf, FirstSeen, IndexOf;
    forall a | 0 <= a < |merged| ensures WORST_LOSS.key(merged[a]) == FirstSeen(records)[a] {
    }
  }

  /** So it says of each identity whether anything was lost. */
  lemma MergedLoses(records: seq<TruncationRecord>, id: RecordIdentity)
    requires NoGains(records)
    ensures var merged := Fold(WORST_LOSS, [], records);
            var at := IndexOf(WORST_LOSS, merged, id);
            Loses(records, id) <==> at < |merged| && merged[at].lost != 0
    ensures NoGains(Fold(WORST_LOSS, [], records))
  {
    MergedFromList(records);
    MergedWorst(records, id);
    WorstOfIsFirstWorst(records, id);
    hide Fold, WorstOf, IndexOf;
    if Loses(records, id) {
      var k :| 0 <= k < |records| && records[k].Identity() == id && 0 < records[k].lost;
      assert records[k] in records;
    }
  }

  lemma LosersByLast(records: seq<TruncationRecord>)
    requires records != [] && NoGains(records)
    ensures var init, last := records[..|records| - 1], records[|records| - 1];
            LosersDistinct(records) <==> LosersDistinct(init) && (last.lost == 0 || !Loses(init, last.Identity()))
  {
    var init, last := records[..|records| - 1], records[|records| - 1];
    if LosersDistinct(records) {
      assert forall a, b | 0 <= a < b < |init| :: init[a] == records[a] && init[b] == records[b];
      if Loses(init, last.Identity()) {
        var k :| 0 <= k < |init| && init[k].Identity() == last.Identity() && 0 < init[k].lost;
        assert records[k] == init[k];
      }
    }
    if LosersDistinct(init) && (last.lost == 0 || !Loses(init, last.Identity())) {
      forall a, b | 0 <= a < b < |records| && records[a].Identity() == records[b].Identity()
        ensures records[a].lost == 0 || records[b].lost == 0
      {
        assert init[a] == records[a];
      }
    }
  }

  lemma {:induction false} MergingKeepsTotal(records: seq<TruncationRecord>)
    requires NoGains(records)
    ensures var total := SumLost(Fold(WORST_LOSS, [], records));
            if LosersDistinct(records) then total == SumLost(records) else total < SumLost(records)
  {
    if records != [] {
      var init, last := records[..|records| - 1], records[|records| - 1];
      MergingKeepsTotal(init);
      MergedLoses(init, last.Identity());
      PutTotal(Fold(WORST_LOSS, [], init), last);
      LosersByLast(records);
    }
  }

  /**
   * The artefact's total is the sum of all booked losses exactly when no two records
   * that lost something share an identity; otherwise it is less.
   */
  lemma TotalSurvivesMerging(records: seq<TruncationRecord>, audits: seq<Reconciliation>)
    requires NoGains(records)
    ensures var total := Merged(EMPTY_STATE, TruncationState(records, audits, 0)).totalLost;
            total <= SumLost(records) && (total == SumLost(records) <==> LosersDistinct(records))
  {
    MergingKeepsTotal(records);
    assert EMPTY_STATE.records + records == records;
  }

  // ---------------------------------------------------------------------------
  // Audits

  /**
   * The merged audits are the last one of each label. That is the last one of each
   * scope exactly when no two scopes share a label.
   */
  lemma MergedAuditsAreTheLatest(audits: seq<Reconciliation>)
    ensures IsLatest(LATEST_AUDIT, Fold(LATEST_AUDIT, [], audits), audits)
  {
    FoldKeepsLatest(LATEST_AUDIT, audits);
  }
}
