/** The slicer's accounting as a value: what was handed to the sink, what was booked as lost. */
module Coverage {
  import opened Windows

  datatype Ledger = Ledger(seen: set<string>, unique: int, duplicates: int, expectedLoss: int, sunk: seq<Issue>)

  // ---------------------------------------------------------------------------
  // The dedup sieve

  datatype Sieve = Sieve(passed: seq<Issue>, seen: set<string>, duplicates: nat, keyless: nat)

  function SiftOne(s: Sieve, i: Issue): (after: Sieve) {
    if i.key == "" then s.(passed := s.passed + [i], keyless := s.keyless + 1)
    else if i.key in s.seen then s.(duplicates := s.duplicates + 1)
    else s.(passed := s.passed + [i], seen := s.seen + {i.key})
  }

  function Sift(items: seq<Issue>, seen: set<string>): (sieve: Sieve) {
    if items == [] then Sieve([], seen, 0, 0)
    else SiftOne(Sift(items[..|items| - 1], seen), items[|items| - 1])
  }

  function KeysOf(issues: seq<Issue>): (keys: set<string>) {
    set i | i in issues && i.key != "" :: i.key
  }

  function KeylessIn(issues: seq<Issue>): (n: nat) {
    if issues == [] then 0
    else KeylessIn(issues[..|issues| - 1]) + if issues[|issues| - 1].key == "" then 1 else 0
  }

  lemma KeylessAppend(issues: seq<Issue>, i: Issue)
    ensures KeylessIn(issues + [i]) == KeylessIn(issues) + if i.key == "" then 1 else 0
  {
    assert (issues + [i])[..|issues + [i]| - 1] == issues;
  }

  /** The sieve's books agree with everything handed over, `sunk` before it and what it let through. */
  ghost predicate Balanced(s: Sieve, sunk: seq<Issue>) {
    && s.seen == KeysOf(sunk + s.passed)
    && DistinctKeys(sunk + s.passed)
    && KeylessIn(sunk + s.passed) == KeylessIn(sunk) + s.keyless
  }

  lemma SiftOneStaysBalanced(s: Sieve, sunk: seq<Issue>, i: Issue)
    requires Balanced(s, sunk)
    ensures Balanced(SiftOne(s, i), sunk)
  {
    if i.key == "" || i.key !in s.seen {
      AppendFresh(sunk + s.passed, i);
      KeylessAppend(sunk + s.passed, i);
      assert sunk + (s.passed + [i]) == (sunk + s.passed) + [i];
    }
  }

  /** Every item is either fresh or a duplicate, and the dedup set stays exactly the keys handed over. */
  lemma {:induction false} SiftAccountsForEveryItem(items: seq<Issue>, sunk: seq<Issue>)
    requires DistinctKeys(sunk)
    ensures var s := Sift(items, KeysOf(sunk));
            && |s.passed| + s.duplicates == |items|
            && Balanced(s, sunk)
            && (forall i | i in s.passed :: i in items)
  {
    if items == [] {
      assert sunk + [] == sunk;
    } else {
      SiftAccountsForEveryItem(items[..|items| - 1], sunk);
      SiftOneStaysBalanced(Sift(items[..|items| - 1], KeysOf(sunk)), sunk, items[|items| - 1]);
    }
  }

  lemma AppendFresh(sunk: seq<Issue>, i: Issue)
    requires DistinctKeys(sunk)
    requires i.key == "" || i.key !in KeysOf(sunk)
    ensures DistinctKeys(sunk + [i])
    ensures KeysOf(sunk + [i]) == if i.key == "" then KeysOf(sunk) else KeysOf(sunk) + {i.key}
  {
    forall a, b | 0 <= a < b < |sunk + [i]| && (sunk + [i])[a].key == (sunk + [i])[b].key
      ensures (sunk + [i])[a].key == ""
    {
      if b == |sunk| {
        assert sunk[a] in sunk;
      }
    }
    assert forall j :: j in sunk + [i] <==> j in sunk || j == i;
  }

  /** None of these issues has been handed over yet. */
  ghost predicate Untouched(issues: seq<Issue>, seen: set<string>) {
    forall i | i in issues :: i.key == "" || i.key !in seen
  }

  /** The sieve lets everything through when keys are distinct and none was seen. */
  lemma {:induction false} SiftPassesNewItems(items: seq<Issue>, seen: set<string>)
    requires DistinctKeys(items) && Untouched(items, seen)
    ensures Sift(items, seen).passed == items && Sift(items, seen).duplicates == 0
    ensures Sift(items, seen).seen == seen + KeysOf(items)
  {
    if items != [] {
      var init, last := items[..|items| - 1], items[|items| - 1];
      assert items == init + [last];
      SiftPassesNewItems(init, seen);
      LastKeyIsNew(items);
      AppendFresh(init, last);
    }
  }

  lemma LastKeyIsNew(items: seq<Issue>)
    requires DistinctKeys(items) && items != []
    ensures var init, last := items[..|items| - 1], items[|items| - 1];
            DistinctKeys(init) && (last.key == "" || last.key !in KeysOf(init))
  {
    var init, last := items[..|items| - 1], items[|items| - 1];
    forall i | i in init && i.key == last.key ensures i.key == "" {
      var a :| 0 <= a < |init| && init[a] == i;
      assert items[a].key == items[|items| - 1].key;
    }
  }

  // ---------------------------------------------------------------------------
  // Coverage

  function AbsorbInto(l: Ledger, items: seq<Issue>): (after: Ledger) {
    var s := Sift(items, l.seen);
    l.(seen := s.seen, unique := l.unique + |s.passed|, duplicates := l.duplicates + s.duplicates,
       sunk := l.sunk + s.passed)
  }

  function Book(l: Ledger, lost: int): (after: Ledger) {
    l.(expectedLoss := l.expectedLoss + lost)
  }

  /**
   * From `a` to `b` only issues of `s` were dealt with: handed over or booked as
   * lost, none twice.
   */
  ghost predicate Within(s: seq<Issue>, a: Ledger, b: Ledger) {
    && b.duplicates == a.duplicates
    && b.seen <= a.seen + KeysOf(s)
    && multiset(b.sunk) <= multiset(a.sunk) + multiset(s)
    && b.unique + b.expectedLoss <= a.unique + a.expectedLoss + |s|
    && a.expectedLoss <= b.expectedLoss
  }

  /** All of them were. */
  ghost predicate Covered(s: seq<Issue>, a: Ledger, b: Ledger) {
    Within(s, a, b) && b.unique + b.expectedLoss == a.unique + a.expectedLoss + |s|
  }

  /** Handing over a prefix of a selection and booking the rest covers the selection. */
  lemma AbsorbedPrefixCovers(s: seq<Issue>, items: seq<Issue>, a: Ledger)
    requires DistinctKeys(s) && Untouched(s, a.seen) && items <= s
    ensures Covered(s, a, Book(AbsorbInto(a, items), |s| - |items|))
    ensures items == s ==> Covered(s, a, AbsorbInto(a, items))
  {
    assert forall i :: i in items ==> i in s;
    SiftPassesNewItems(items, a.seen);
    assert s == items + s[|items|..];
  }

  lemma CoveredNothing(a: Ledger)
    ensures Covered([], a, a)
  {
  }

  lemma CoveredBoth(s: seq<Issue>, t: seq<Issue>, a: Ledger, b: Ledger, c: Ledger)
    requires Within(s, a, b) && Within(t, b, c)
    ensures Within(s + t, a, c)
    ensures Covered(s, a, b) && Covered(t, b, c) ==> Covered(s + t, a, c)
  {
  }

  lemma CoveredReordered(s: seq<Issue>, t: seq<Issue>, a: Ledger, b: Ledger)
    requires Within(s, a, b) && multiset(s) == multiset(t)
    ensures Within(t, a, b)
    ensures Covered(s, a, b) ==> Covered(t, a, b)
  {
    WithinPart(s, t, a, b);
    assert |s| == |multiset(s)| == |multiset(t)| == |t|;
  }

  lemma WithinPart(s: seq<Issue>, t: seq<Issue>, a: Ledger, b: Ledger)
    requires Within(s, a, b) && multiset(s) <= multiset(t)
    ensures Within(t, a, b)
  {
    SubMultisetSize(multiset(s), multiset(t));
    assert |s| == |multiset(s)| && |t| == |multiset(t)|;
    forall i | i in s ensures i in t {
      assert i in multiset(s) && i in multiset(t);
    }
  }

  /** Dealing with one part of a collection leaves a disjoint part untouched. */
  lemma RestStaysUntouched(all: seq<Issue>, s: seq<Issue>, t: seq<Issue>, a: Ledger, b: Ledger)
    requires DistinctKeys(all) && (forall i | i in s :: i in all) && (forall i | i in t :: i in all && i !in s)
    requires Untouched(t, a.seen) && Within(s, a, b)
    ensures Untouched(t, b.seen)
  {
    forall i | i in t && i.key != "" ensures i.key !in b.seen {
      if i.key in KeysOf(s) {
        var j :| j in s && j.key == i.key;
        SameKeySameIssue(all, i, j);
      }
    }
  }

  /** A covered collection with nothing booked was handed over exactly. */
  lemma CoveredWithoutLoss(s: seq<Issue>, a: Ledger, b: Ledger)
    requires Covered(s, a, b) && a.unique == |a.sunk| && b.unique == |b.sunk|
    requires b.expectedLoss == a.expectedLoss
    ensures multiset(b.sunk) == multiset(a.sunk) + multiset(s)
  {
    SubMultisetSize(multiset(b.sunk), multiset(a.sunk) + multiset(s));
  }

  // ---------------------------------------------------------------------------
  // What a fallback fetch guarantees

  /** The issue, or one with its key, was handed over. */
  ghost predicate HandedOver(i: Issue, sunk: seq<Issue>) {
    i in sunk || (i.key != "" && i.key in KeysOf(sunk))
  }

  ghost predicate AllHandedOver(items: seq<Issue>, sunk: seq<Issue>) {
    forall i | i in items :: HandedOver(i, sunk)
  }

  lemma HandedOverStays(items: seq<Issue>, sunk: seq<Issue>, more: seq<Issue>)
    requires sunk <= more
    ensures AllHandedOver(items, sunk) ==> AllHandedOver(items, more)
  {
    assert forall j | j in sunk :: j in more;
  }

  /** Whatever was seen before, absorbing items leaves each of them handed over. */
  lemma {:induction false} AbsorbedIsHandedOver(items: seq<Issue>, sunk: seq<Issue>)
    requires DistinctKeys(sunk)
    ensures AllHandedOver(items, sunk + Sift(items, KeysOf(sunk)).passed)
  {
    if items != [] {
      var init, last := items[..|items| - 1], items[|items| - 1];
      var s, t := Sift(init, KeysOf(sunk)), Sift(items, KeysOf(sunk));
      AbsorbedIsHandedOver(init, sunk);
      SiftAccountsForEveryItem(init, sunk);
      SiftAccountsForEveryItem(items, sunk);
      assert sunk + s.passed <= sunk + t.passed;
      HandedOverStays(init, sunk + s.passed, sunk + t.passed);
      assert HandedOver(last, sunk + t.passed);
      assert items == init + [last];
    }
  }
}
