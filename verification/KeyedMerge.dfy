/**
 * Merging lists keyed by an identity: the first entry of an identity fixes its
 * place, and a later one replaces it there when it wins. The truncation records
 * and the reconciliations of a run are both merged this way.
 */
module KeyedMerge {
  datatype Rule<!T, !K(==)> = Rule(key: T -> K, beats: (T, T) -> bool) {
    function Pick(old': T, new': T): (kept: T) {
      if beats(new', old') then new' else old'
    }
  }

  /** Choosing between entries of one identity does not depend on how they are grouped. */
  ghost predicate Associative<T(!new), K>(rule: Rule<T, K>) {
    && (forall x, y, z :: rule.key(x) == rule.key(y) == rule.key(z)
                          ==> rule.Pick(rule.Pick(x, y), z) == rule.Pick(x, rule.Pick(y, z)))
    && (forall x :: rule.Pick(x, x) == x)
  }

  function IndexOf<T, K(==)>(rule: Rule<T, K>, acc: seq<T>, key: K): (k: nat)
    ensures k <= |acc|
    ensures k < |acc| ==> rule.key(acc[k]) == key
    ensures forall j | 0 <= j < k :: rule.key(acc[j]) != key
  {
    if acc == [] then 0
    else if rule.key(acc[0]) == key then 0
    else 1 + IndexOf(rule, acc[1..], key)
  }

  function Put<T, K(==)>(rule: Rule<T, K>, acc: seq<T>, x: T): (merged: seq<T>) {
    var k := IndexOf(rule, acc, rule.key(x));
    if k == |acc| then acc + [x] else acc[k := rule.Pick(acc[k], x)]
  }

  /** `acc` with the entries of `xs` merged in, in order. */
  function Fold<T, K(==)>(rule: Rule<T, K>, acc: seq<T>, xs: seq<T>): (merged: seq<T>) {
    if xs == [] then acc
    else Put(rule, Fold(rule, acc, xs[..|xs| - 1]), xs[|xs| - 1])
  }

  ghost predicate DistinctKeys<T, K>(rule: Rule<T, K>, xs: seq<T>) {
    forall a, b | 0 <= a < b < |xs| :: rule.key(xs[a]) != rule.key(xs[b])
  }

  lemma PutKeepsKeysDistinct<T, K>(rule: Rule<T, K>, acc: seq<T>, x: T)
    requires DistinctKeys(rule, acc)
    ensures DistinctKeys(rule, Put(rule, acc, x))
  {
  }

  lemma {:induction false} FoldKeepsKeysDistinct<T, K>(rule: Rule<T, K>, acc: seq<T>, xs: seq<T>)
    requires DistinctKeys(rule, acc)
    ensures DistinctKeys(rule, Fold(rule, acc, xs))
  {
    if xs != [] {
      FoldKeepsKeysDistinct(rule, acc, xs[..|xs| - 1]);
      PutKeepsKeysDistinct(rule, Fold(rule, acc, xs[..|xs| - 1]), xs[|xs| - 1]);
    }
  }

  lemma {:induction false} FoldConcat<T, K>(rule: Rule<T, K>, acc: seq<T>, xs: seq<T>, ys: seq<T>)
    ensures Fold(rule, acc, xs + ys) == Fold(rule, Fold(rule, acc, xs), ys)
  {
    if ys == [] {
      assert xs + ys == xs;
    } else {
      FoldConcat(rule, acc, xs, ys[..|ys| - 1]);
      assert (xs + ys)[..|xs + ys| - 1] == xs + ys[..|ys| - 1];
    }
  }

  lemma {:induction false} FoldKeepsPlaces<T, K>(rule: Rule<T, K>, acc: seq<T>, xs: seq<T>)
    ensures |acc| <= |Fold(rule, acc, xs)|
    ensures forall k | 0 <= k < |acc| :: rule.key(Fold(rule, acc, xs)[k]) == rule.key(acc[k])
  {
    if xs != [] {
      FoldKeepsPlaces(rule, acc, xs[..|xs| - 1]);
    }
  }

  lemma SameKeysSameIndex<T, K>(rule: Rule<T, K>, xs: seq<T>, ys: seq<T>, key: K)
    requires |xs| <= |ys|
    requires forall k | 0 <= k < |xs| :: rule.key(xs[k]) == rule.key(ys[k])
    requires IndexOf(rule, xs, key) < |xs|
    ensures IndexOf(rule, ys, key) == IndexOf(rule, xs, key)
  {
    var i, j := IndexOf(rule, xs, key), IndexOf(rule, ys, key);
    assert rule.key(ys[i]) == key;
    assert j < |xs| ==> rule.key(xs[j]) == key;
  }

  /** An entry merged where its identity already has a place commutes with entries of other identities. */
  lemma {:induction false} PutBeforeOthers<T, K>(rule: Rule<T, K>, acc: seq<T>, x: T, others: seq<T>)
    requires IndexOf(rule, acc, rule.key(x)) < |acc|
    requires forall y | y in others :: rule.key(y) != rule.key(x)
    ensures Fold(rule, Put(rule, acc, x), others) == Put(rule, Fold(rule, acc, others), x)
  {
    if others != [] {
      var init, y := others[..|others| - 1], others[|others| - 1];
      PutBeforeOthers(rule, acc, x, init);
      var mid := Fold(rule, acc, init);
      FoldKeepsPlaces(rule, acc, init);
      SameKeysSameIndex(rule, acc, mid, rule.key(x));
      PutsCommute(rule, mid, x, y);
    }
  }

  lemma PutsCommute<T, K>(rule: Rule<T, K>, acc: seq<T>, x: T, y: T)
    requires IndexOf(rule, acc, rule.key(x)) < |acc| && rule.key(x) != rule.key(y)
    ensures Put(rule, Put(rule, acc, x), y) == Put(rule, Put(rule, acc, y), x)
  {
    var i, j := IndexOf(rule, acc, rule.key(x)), IndexOf(rule, acc, rule.key(y));
    var ax, ay := Put(rule, acc, x), Put(rule, acc, y);
    SameKeysSameIndex(rule, acc, ay, rule.key(x));
    var j' := IndexOf(rule, ax, rule.key(y));
    assert forall k | 0 <= k < |acc| :: rule.key(ax[k]) == rule.key(acc[k]);
    if j < |acc| {
      SameKeysSameIndex(rule, acc, ax, rule.key(y));
    }
    assert i != j;
  }

  /** Two entries of one identity merged one after the other are the winner merged once. */
  lemma PutTwice<T(!new), K>(rule: Rule<T, K>, acc: seq<T>, b: T, x: T)
    requires Associative(rule) && rule.key(b) == rule.key(x)
    ensures Put(rule, Put(rule, acc, b), x) == Put(rule, acc, rule.Pick(b, x))
  {
    var k := IndexOf(rule, acc, rule.key(b));
    var ab := Put(rule, acc, b);
    if k < |acc| {
      assert forall j | 0 <= j < |acc| :: rule.key(ab[j]) == rule.key(acc[j]);
      SameKeysSameIndex(rule, acc, ab, rule.key(b));
    } else {
      assert ab == acc + [b] && rule.key(ab[|acc|]) == rule.key(x);
      assert forall j | 0 <= j < |acc| :: rule.key(ab[j]) != rule.key(x);
    }
  }

  /** Merging a list whose last entry was merged first gives the same as merging it in order. */
  lemma {:induction false} FoldPut<T(!new), K>(rule: Rule<T, K>, acc: seq<T>, xs: seq<T>, x: T)
    requires Associative(rule) && DistinctKeys(rule, xs)
    ensures Fold(rule, acc, Put(rule, xs, x)) == Put(rule, Fold(rule, acc, xs), x)
  {
    var k := IndexOf(rule, xs, rule.key(x));
    if k == |xs| {
      assert (xs + [x])[..|xs + [x]| - 1] == xs;
    } else {
      var before, b, after := xs[..k], xs[k], xs[k + 1..];
      var w := rule.Pick(b, x);
      assert xs == (before + [b]) + after;
      assert Put(rule, xs, x) == (before + [w]) + after;
      var start := Fold(rule, acc, before);
      FoldConcat(rule, acc, before + [b], after);
      FoldConcat(rule, acc, before + [w], after);
      FoldLast(rule, acc, before, b);
      FoldLast(rule, acc, before, w);
      PutTwice(rule, start, b, x);
      var placed := Put(rule, start, b);
      assert IndexOf(rule, placed, rule.key(x)) < |placed| by {
        HasPlace(rule, start, b);
      }
      PutBeforeOthers(rule, placed, x, after);
    }
  }

  lemma FoldLast<T, K>(rule: Rule<T, K>, acc: seq<T>, xs: seq<T>, x: T)
    ensures Fold(rule, acc, xs + [x]) == Put(rule, Fold(rule, acc, xs), x)
  {
    assert (xs + [x])[..|xs + [x]| - 1] == xs;
  }

  lemma HasPlace<T, K>(rule: Rule<T, K>, acc: seq<T>, x: T)
    ensures IndexOf(rule, Put(rule, acc, x), rule.key(x)) < |Put(rule, acc, x)|
  {
    var after := Put(rule, acc, x);
    var k := IndexOf(rule, acc, rule.key(x));
    assert rule.key(after[k]) == rule.key(x);
  }

  /** Merging a list that was already merged is merging the list it came from. */
  lemma {:induction false} FoldFold<T(!new), K>(rule: Rule<T, K>, acc: seq<T>, xs: seq<T>)
    requires Associative(rule)
    ensures Fold(rule, acc, Fold(rule, [], xs)) == Fold(rule, acc, xs)
  {
    if xs != [] {
      var init := xs[..|xs| - 1];
      FoldFold(rule, acc, init);
      FoldKeepsKeysDistinct(rule, [], init);
      FoldPut(rule, acc, Fold(rule, [], init), xs[|xs| - 1]);
    }
  }

  /** Merging is associative, and merging twice is merging the concatenation. */
  lemma MergeAssociative<T(!new), K>(rule: Rule<T, K>, a: seq<T>, b: seq<T>, c: seq<T>)
    requires Associative(rule)
    ensures Fold(rule, [], Fold(rule, [], a + b) + c) == Fold(rule, [], a + (b + c))
    ensures Fold(rule, [], a + Fold(rule, [], b + c)) == Fold(rule, [], a + (b + c))
  {
    calc {
      Fold(rule, [], Fold(rule, [], a + b) + c);
      { MergeFirst(rule, a + b, c); }
      Fold(rule, [], (a + b) + c);
      { assert (a + b) + c == a + (b + c); }
      Fold(rule, [], a + (b + c));
    }
    MergeLast(rule, a, b + c);
  }

  lemma MergeFirst<T(!new), K>(rule: Rule<T, K>, xs: seq<T>, ys: seq<T>)
    requires Associative(rule)
    ensures Fold(rule, [], Fold(rule, [], xs) + ys) == Fold(rule, [], xs + ys)
  {
    FoldConcat(rule, [], Fold(rule, [], xs), ys);
    FoldFold(rule, [], xs);
    FoldConcat(rule, [], xs, ys);
  }

  lemma MergeLast<T(!new), K>(rule: Rule<T, K>, xs: seq<T>, ys: seq<T>)
    requires Associative(rule)
    ensures Fold(rule, [], xs + Fold(rule, [], ys)) == Fold(rule, [], xs + ys)
  {
    FoldConcat(rule, [], xs, Fold(rule, [], ys));
    FoldFold(rule, Fold(rule, [], xs), ys);
    FoldConcat(rule, [], xs, ys);
  }

  /** Merging entries in again changes nothing. */
  lemma {:induction false} FoldAgain<T(!new), K>(rule: Rule<T, K>, acc: seq<T>, xs: seq<T>)
    requires Associative(rule)
    ensures Fold(rule, Fold(rule, acc, xs), xs) == Fold(rule, acc, xs)
  {
    if xs != [] {
      // merge the entries of xs one identity at a time, through their merged form
      FoldFold(rule, Fold(rule, acc, xs), xs);
      FoldFold(rule, acc, xs);
      FoldKeepsKeysDistinct(rule, [], xs);
      DistinctFoldAgain(rule, acc, Fold(rule, [], xs));
    }
  }

  lemma {:induction false} DistinctFoldAgain<T(!new), K>(rule: Rule<T, K>, acc: seq<T>, xs: seq<T>)
    requires Associative(rule) && DistinctKeys(rule, xs)
    ensures Fold(rule, Fold(rule, acc, xs), xs) == Fold(rule, acc, xs)
  {
    if xs != [] {
      var init, x := xs[..|xs| - 1], xs[|xs| - 1];
      var before := Fold(rule, acc, init);
      DistinctFoldAgain(rule, acc, init);
      FoldHasPlaces(rule, acc, init);
      PutThenOthers(rule, before, x, init);
      PutTwice(rule, before, x, x);
    }
  }

  lemma {:induction false} FoldHasPlaces<T, K>(rule: Rule<T, K>, acc: seq<T>, xs: seq<T>)
    ensures forall x | x in xs :: IndexOf(rule, Fold(rule, acc, xs), rule.key(x)) < |Fold(rule, acc, xs)|
  {
    if xs != [] {
      var init, last := xs[..|xs| - 1], xs[|xs| - 1];
      var before := Fold(rule, acc, init);
      FoldHasPlaces(rule, acc, init);
      HasPlace(rule, before, last);
      forall x | x in xs ensures IndexOf(rule, Put(rule, before, last), rule.key(x)) < |Put(rule, before, last)| {
        if x in init {
          SameKeysSameIndex(rule, before, Put(rule, before, last), rule.key(x));
        } else {
          assert x == last;
        }
      }
    }
  }

  /** As PutBeforeOthers, when the other identities all have their places already. */
  lemma {:induction false} PutThenOthers<T(!new), K>(rule: Rule<T, K>, acc: seq<T>, x: T, others: seq<T>)
    requires forall y | y in others :: rule.key(y) != rule.key(x)
    requires forall y | y in others :: IndexOf(rule, acc, rule.key(y)) < |acc|
    ensures Fold(rule, Put(rule, acc, x), others) == Put(rule, Fold(rule, acc, others), x)
  {
    if others != [] {
      var init, y := others[..|others| - 1], others[|others| - 1];
      PutThenOthers(rule, acc, x, init);
      var mid := Fold(rule, acc, init);
      FoldKeepsPlaces(rule, acc, init);
      SameKeysSameIndex(rule, acc, mid, rule.key(y));
      PutsCommute(rule, mid, y, x);
    }
  }

  // ---------------------------------------------------------------------------
  // When a later entry always wins

  ghost predicate LastWins<T(!new), K>(rule: Rule<T, K>) {
    forall x, y :: rule.beats(x, y)
  }

  /** The last entry with a key. */
  function LastWith<T, K(==)>(rule: Rule<T, K>, xs: seq<T>, key: K): (last: seq<T>)
    ensures |last| <= 1
  {
    if xs == [] then []
    else if rule.key(xs[|xs| - 1]) == key then [xs[|xs| - 1]]
    else LastWith(rule, xs[..|xs| - 1], key)
  }

  ghost predicate HasKey<T, K>(rule: Rule<T, K>, xs: seq<T>, key: K) {
    exists k :: 0 <= k < |xs| && rule.key(xs[k]) == key
  }

  /** `merged` holds the last entry of each key, once. */
  ghost predicate IsLatest<T, K>(rule: Rule<T, K>, merged: seq<T>, xs: seq<T>) {
    && DistinctKeys(rule, merged)
    && (forall k | 0 <= k < |merged| :: LastWith(rule, xs, rule.key(merged[k])) == [merged[k]])
    && (forall k | 0 <= k < |xs| :: HasKey(rule, merged, rule.key(xs[k])))
  }

  lemma {:induction false} FoldKeepsLatest<T(!new), K>(rule: Rule<T, K>, xs: seq<T>)
    requires LastWins(rule)
    ensures IsLatest(rule, Fold(rule, [], xs), xs)
  {
    if xs != [] {
      FoldKeepsLatest(rule, xs[..|xs| - 1]);
      PutKeepsLatest(rule, Fold(rule, [], xs[..|xs| - 1]), xs);
    }
  }

  lemma PutKeepsLatest<T(!new), K>(rule: Rule<T, K>, before: seq<T>, xs: seq<T>)
    requires LastWins(rule) && xs != [] && IsLatest(rule, before, xs[..|xs| - 1])
    ensures IsLatest(rule, Put(rule, before, xs[|xs| - 1]), xs)
  {
    var last := xs[|xs| - 1];
    var merged, at := Put(rule, before, last), IndexOf(rule, before, rule.key(last));
    PutKeepsKeysDistinct(rule, before, last);
    assert at < |merged| && merged[at] == last;
    forall k | 0 <= k < |xs| ensures HasKey(rule, merged, rule.key(xs[k])) {
      if k < |xs| - 1 {
        assert xs[..|xs| - 1][k] == xs[k];
        var j :| 0 <= j < |before| && rule.key(before[j]) == rule.key(xs[k]);
        assert rule.key(merged[j]) == rule.key(before[j]);
      } else {
        assert rule.key(merged[at]) == rule.key(xs[k]);
      }
    }
  }

  // ---------------------------------------------------------------------------
  // The merge, with a map from each identity to its place

  /** Indexes a merged list by identity. */
  ghost predicate Indexes<T, K>(rule: Rule<T, K>, index: map<K, nat>, merged: seq<T>) {
    && (forall k | 0 <= k < |merged| :: rule.key(merged[k]) in index && index[rule.key(merged[k])] == k)
    && (forall key | key in index :: index[key] < |merged| && rule.key(merged[index[key]]) == key)
  }

  lemma FoldNext<T, K>(rule: Rule<T, K>, all: seq<T>, i: nat)
    requires i < |all|
    ensures Fold(rule, [], all[..i + 1]) == Put(rule, Fold(rule, [], all[..i]), all[i])
  {
    assert all[..i + 1] == all[..i] + [all[i]];
    FoldLast(rule, [], all[..i], all[i]);
  }

  lemma FoundByIndex<T, K>(rule: Rule<T, K>, index: map<K, nat>, merged: seq<T>, key: K)
    requires Indexes(rule, index, merged)
    ensures IndexOf(rule, merged, key) == if key in index then index[key] else |merged|
  {
    var k := IndexOf(rule, merged, key);
    if k < |merged| {
      assert rule.key(merged[k]) == key;
    }
  }

  /** Merges a list in one pass. */
  method MergeByKey<T, K(==)>(rule: Rule<T, K>, all: seq<T>) returns (merged: seq<T>)
    ensures merged == Fold(rule, [], all)
  {
    merged := [];
    var index: map<K, nat> := map[];
    for i := 0 to |all|
      invariant merged == Fold(rule, [], all[..i])
      invariant Indexes(rule, index, merged)
    {
      var x := all[i];
      var id := rule.key(x);
      FoldNext(rule, all, i);
      FoundByIndex(rule, index, merged, id);
      if id !in index {
        index := index[id := |merged|];
        merged := merged + [x];
      } else if rule.beats(x, merged[index[id]]) {
        merged := merged[index[id] := x];
      }
    }
    assert all[..|all|] == all;
  }
}
