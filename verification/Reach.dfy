/**
 * When bisecting from the root reaches every issue before the depth backstop. An open
 * edge is widened at most once, from the leaf at that end, which costs one level and
 * the path from there.
 */
module Reach {
  import opened Wrappers
  import opened RawClient
  import opened Windows
  import opened Depths
  import opened IssueServer

  /** The arithmetic bounds contain everything the window selects. */
  ghost predicate Bounded(all: seq<Issue>, w: IssueWindow) {
    forall i | i in Select(all, QueryOf(w, [])) :: w.start <= i.created < w.end
  }

  /** No issue the window selects can be missed: its bounds hold them all, or the date requests find them. */
  ghost predicate Found(server: Server, all: seq<Issue>, w: IssueWindow) {
    DatesAnswer(server, all) || Bounded(all, w)
  }

  /** The first creation second of some issues. */
  ghost function Earliest(s: seq<Issue>): (second: int)
    requires s != []
    ensures IsExtreme(s, true, Some(second))
  {
    assert IsExtreme(s, true, Some(FirstCreated(s, true).value));
    var second :| IsExtreme(s, true, Some(second));
    second
  }

  /** The last one. */
  ghost function Latest(s: seq<Issue>): (second: int)
    requires s != []
    ensures IsExtreme(s, false, Some(second))
  {
    assert IsExtreme(s, false, Some(FirstCreated(s, false).value));
    var second :| IsExtreme(s, false, Some(second));
    second
  }

  lemma FirstIsEarliest(s: seq<Issue>, second: int)
    requires s != [] && IsExtreme(s, true, Some(second))
    ensures second == Earliest(s)
  {
  }

  lemma LastIsLatest(s: seq<Issue>, second: int)
    requires s != [] && IsExtreme(s, false, Some(second))
    ensures second == Latest(s)
  {
  }

  /** The levels below the leaf of a second, when that leaf is widened to where its issues begin or end. */
  function Beyond(first: int, last: int, w: IssueWindow, second: int): (n: nat) {
    if second <= w.start && first < w.start then 1 + PathLevels(w.start + 1 - first, second - first)
    else if w.end - 1 <= second && w.end <= last then 1 + PathLevels(last + 2 - w.end, second + 1 - w.end)
    else 0
  }

  /** The depth at which a second's issues are fetched. */
  function DepthOf(first: int, last: int, w: IssueWindow, depth: nat, second: int): (n: nat) {
    depth + PathLevels(w.end - w.start, second - w.start) + Beyond(first, last, w, second)
  }

  /** Every issue the window selects is fetched above the backstop. */
  ghost predicate Reaches(all: seq<Issue>, w: IssueWindow, depth: nat) {
    && depth < MAX_SLICE_DEPTH
    && var s := Select(all, QueryOf(w, []));
       forall i | i in s :: DepthOf(Earliest(s), Latest(s), w, depth, i.created) < MAX_SLICE_DEPTH
  }

  lemma ReachEndsAtBackstop(all: seq<Issue>, w: IssueWindow, depth: nat)
    ensures Reaches(all, w, depth) ==> depth < MAX_SLICE_DEPTH
  {
  }

  /** Not a single second that is open at both ends. */
  predicate OneEnded(w: IssueWindow) {
    w.Splittable() || !w.openStart || !w.openEnd
  }

  lemma SelectedOf(all: seq<Issue>, w: IssueWindow)
    ensures forall i :: i in Select(all, QueryOf(w, [])) <==> i in all && w.Holds(i.created)
  {
    SelectMembers(all, QueryOf(w, []));
    forall i: Issue ensures Selects(QueryOf(w, []), i) <==> w.Holds(i.created) {
    }
  }

  // ---------------------------------------------------------------------------
  // Bisecting keeps what is reachable reachable

  /** What a half needs for a second of its own is what the window needs, one level down. */
  lemma LeftNeedsTheRest(w: IssueWindow, depth: nat, first: int, last: int, leftFirst: int, leftLast: int,
                         second: int)
    requires w.Splittable() && second < w.Mid() && leftLast < w.Mid()
    requires leftFirst < w.start ==> leftFirst == first
    ensures DepthOf(leftFirst, leftLast, SplitWindow(w).0, depth + 1, second) <= DepthOf(first, last, w, depth, second)
  {
  }

  lemma RightNeedsTheRest(w: IssueWindow, depth: nat, first: int, last: int, rightFirst: int, rightLast: int,
                          second: int)
    requires w.Splittable() && w.Mid() <= second && w.Mid() <= rightFirst
    requires w.end <= rightLast ==> rightLast == last
    ensures DepthOf(rightFirst, rightLast, SplitWindow(w).1, depth + 1, second)
            <= DepthOf(first, last, w, depth, second)
  {
  }

  lemma LeftReaches(all: seq<Issue>, w: IssueWindow, depth: nat)
    requires w.Splittable() && Reaches(all, w, depth) && depth + 1 < MAX_SLICE_DEPTH
    ensures Reaches(all, SplitWindow(w).0, depth + 1)
  {
    var left := SplitWindow(w).0;
    var s, l := Select(all, QueryOf(w, [])), Select(all, QueryOf(left, []));
    SelectedOf(all, w);
    SelectedOf(all, left);
    forall i | i in l ensures DepthOf(Earliest(l), Latest(l), left, depth + 1, i.created) < MAX_SLICE_DEPTH {
      assert i in s;
      LeftNeedsTheRest(w, depth, Earliest(s), Latest(s), Earliest(l), Latest(l), i.created);
    }
  }

  lemma RightReaches(all: seq<Issue>, w: IssueWindow, depth: nat)
    requires w.Splittable() && Reaches(all, w, depth) && depth + 1 < MAX_SLICE_DEPTH
    ensures Reaches(all, SplitWindow(w).1, depth + 1)
  {
    var right := SplitWindow(w).1;
    var s, r := Select(all, QueryOf(w, [])), Select(all, QueryOf(right, []));
    SelectedOf(all, w);
    SelectedOf(all, right);
    forall i | i in r ensures DepthOf(Earliest(r), Latest(r), right, depth + 1, i.created) < MAX_SLICE_DEPTH {
      assert i in s;
      RightNeedsTheRest(w, depth, Earliest(s), Latest(s), Earliest(r), Latest(r), i.created);
    }
  }

  lemma HalvesReach(all: seq<Issue>, w: IssueWindow, depth: nat)
    requires w.Splittable() && Reaches(all, w, depth) && Select(all, QueryOf(w, [])) != []
    ensures Reaches(all, SplitWindow(w).0, depth + 1) && Reaches(all, SplitWindow(w).1, depth + 1)
  {
    var s := Select(all, QueryOf(w, []));
    assert s[0] in s;
    assert depth + 1 <= DepthOf(Earliest(s), Latest(s), w, depth, s[0].created) < MAX_SLICE_DEPTH;
    LeftReaches(all, w, depth);
    RightReaches(all, w, depth);
  }

  /** `wide` is the one-second window `w` with an open edge moved to where its issues end or begin. */
  predicate Widens(first: int, last: int, w: IssueWindow, wide: IssueWindow) {
    || (w.openEnd && w.end <= last && wide == w.(end := last + 1))
    || (w.openStart && first < w.start && wide == w.(start := first))
  }

  ghost predicate WidensTo(all: seq<Issue>, w: IssueWindow, wide: IssueWindow)
    requires Select(all, QueryOf(w, [])) != []
  {
    Widens(Earliest(Select(all, QueryOf(w, []))), Latest(Select(all, QueryOf(w, []))), w, wide)
  }

  /** A leaf that is widened needs for each of its seconds exactly what the wider window needs, one level down. */
  lemma WideningNeedsTheRest(first: int, last: int, w: IssueWindow, wide: IssueWindow, depth: nat, second: int)
    requires w.end == w.start + 1 && OneEnded(w) && Widens(first, last, w, wide)
    requires w.Holds(first) && w.Holds(last) && w.Holds(second)
    ensures DepthOf(first, last, wide, depth + 1, second) == DepthOf(first, last, w, depth, second)
    ensures OneEnded(wide) && wide.start < wide.end
  {
  }

  lemma WideningKeepsSelection(all: seq<Issue>, w: IssueWindow, wide: IssueWindow)
    requires Select(all, QueryOf(w, [])) != [] && WidensTo(all, w, wide)
    ensures QueryOf(wide, []) == QueryOf(w, [])
  {
  }

  lemma WideningReaches(all: seq<Issue>, w: IssueWindow, wide: IssueWindow, depth: nat)
    requires w.end == w.start + 1 && OneEnded(w) && Select(all, QueryOf(w, [])) != [] && WidensTo(all, w, wide)
    requires Reaches(all, w, depth)
    ensures Reaches(all, wide, depth + 1) && OneEnded(wide) && wide.start < wide.end
  {
    var s := Select(all, QueryOf(w, []));
    var first, last := Earliest(s), Latest(s);
    WideningKeepsSelection(all, w, wide);
    SelectedOf(all, w);
    forall i | i in s ensures DepthOf(first, last, wide, depth + 1, i.created) < MAX_SLICE_DEPTH {
      WideningNeedsTheRest(first, last, w, wide, depth, i.created);
    }
    assert s[0] in s;
    assert depth + 1 <= DepthOf(first, last, wide, depth + 1, s[0].created) < MAX_SLICE_DEPTH;
    WideningNeedsTheRest(first, last, w, wide, depth, s[0].created);
  }

  // ---------------------------------------------------------------------------
  // What is reachable

  /** The bounds hold everything, and their width takes fewer levels than are left. */
  lemma BoundedIsReached(all: seq<Issue>, w: IssueWindow, depth: nat)
    requires Bounded(all, w) && depth + Levels(w.end - w.start) < MAX_SLICE_DEPTH
    ensures Reaches(all, w, depth)
  {
    var s := Select(all, QueryOf(w, []));
    hide PathLevels, Levels;
    forall i | i in s ensures DepthOf(Earliest(s), Latest(s), w, depth, i.created) < MAX_SLICE_DEPTH {
      PathWithinLevels(w.end - w.start, i.created - w.start, w.end - w.start);
    }
  }

  // ---------------------------------------------------------------------------
  // One second of issues, which is where the backstop can be met

  ghost predicate OneSecond(all: seq<Issue>) {
    forall i, j | i in all && j in all :: i.created == j.created
  }

  lemma OneSecondExtremes(s: seq<Issue>, i: Issue)
    requires OneSecond(s) && i in s
    ensures Earliest(s) == i.created && Latest(s) == i.created
  {
  }

  lemma OneSecondSelected(all: seq<Issue>, w: IssueWindow)
    requires OneSecond(all)
    ensures OneSecond(Select(all, QueryOf(w, [])))
    ensures Select(all, QueryOf(w, [])) == all || Select(all, QueryOf(w, [])) == []
  {
    SelectMembers(all, QueryOf(w, []));
    SelectedOf(all, w);
    if i :| i in all && w.Holds(i.created) {
      SelectAll(all, QueryOf(w, []));
    }
  }

  /** With all issues in one second, that second is what reach is about. */
  lemma OneSecondReaches(all: seq<Issue>, w: IssueWindow, depth: nat, second: int)
    requires all != [] && (forall i | i in all :: i.created == second) && Select(all, QueryOf(w, [])) == all
    ensures Reaches(all, w, depth)
            <==> depth < MAX_SLICE_DEPTH && DepthOf(second, second, w, depth, second) < MAX_SLICE_DEPTH
  {
    assert all[0] in all;
    OneSecondExtremes(all, all[0]);
  }

  lemma OneSecondHalf(w: IssueWindow, depth: nat, second: int)
    requires w.Splittable()
    ensures var half := if second < w.Mid() then SplitWindow(w).0 else SplitWindow(w).1;
            DepthOf(second, second, half, depth + 1, second) == DepthOf(second, second, w, depth, second)
  {
  }

  /** The half that holds the second is out of reach when the window is. */
  lemma HalfOutOfReach(all: seq<Issue>, w: IssueWindow, depth: nat)
    requires OneSecond(all) && all != [] && w.Splittable() && depth < MAX_SLICE_DEPTH && !Reaches(all, w, depth)
    requires Select(all, QueryOf(w, [])) == all
    ensures var (left, right) := SplitWindow(w);
            var l, r := Select(all, QueryOf(left, [])), Select(all, QueryOf(right, []));
            || (l == all && !Reaches(all, left, depth + 1))
            || (l == [] && r == all && !Reaches(all, right, depth + 1))
  {
    var (left, right) := SplitWindow(w);
    var i := all[0];
    assert i in all;
    SelectedOf(all, w);
    SelectedOf(all, left);
    SelectedOf(all, right);
    OneSecondSelected(all, left);
    OneSecondSelected(all, right);
    OneSecondReaches(all, w, depth, i.created);
    OneSecondHalf(w, depth, i.created);
    if i.created < w.Mid() {
      assert i in Select(all, QueryOf(left, []));
      OneSecondReaches(all, left, depth + 1, i.created);
    } else {
      assert i in Select(all, QueryOf(right, [])) && i !in Select(all, QueryOf(left, []));
      OneSecondReaches(all, right, depth + 1, i.created);
    }
  }

  /** A leaf out of reach lies apart from its second, and the window it is widened to is out of reach too. */
  lemma LeafOutOfReach(all: seq<Issue>, w: IssueWindow, depth: nat)
    requires OneSecond(all) && all != [] && w.end == w.start + 1 && OneEnded(w)
    requires depth < MAX_SLICE_DEPTH && !Reaches(all, w, depth) && Select(all, QueryOf(w, [])) == all
    ensures !HeldByBounds(all, w)
    ensures forall wide | WidensTo(all, w, wide) ::
              Select(all, QueryOf(wide, [])) == all && !Reaches(all, wide, depth + 1)
  {
    var i := all[0];
    assert i in all;
    SelectedOf(all, w);
    OneSecondExtremes(all, i);
    OneSecondReaches(all, w, depth, i.created);
    forall wide | WidensTo(all, w, wide)
      ensures Select(all, QueryOf(wide, [])) == all && !Reaches(all, wide, depth + 1)
    {
      WideningKeepsSelection(all, w, wide);
      WideningNeedsTheRest(i.created, i.created, w, wide, depth, i.created);
      OneSecondReaches(all, wide, depth + 1, i.created);
    }
  }

  /** The open edges select nothing beyond the arithmetic bounds. */
  ghost predicate HeldByBounds(all: seq<Issue>, w: IssueWindow) {
    forall i | i in Select(all, QueryOf(w, [])) ::
      (w.openEnd ==> i.created < w.end) && (w.openStart ==> w.start <= i.created)
  }

  /** The levels to a second before the root, past it, or in it: to the nearer end, the widening, and on from there. */
  function SpanLevels(start: int, end: int, second: int): (n: nat) {
    if second < start then FirstLevels(end - start) + 1 + FirstLevels(start + 1 - second)
    else if end <= second then Levels(end - start) + 1 + Levels(second + 2 - end)
    else PathLevels(end - start, second - start)
  }

  lemma BeyondBefore(w: IssueWindow, second: int)
    requires second < w.start
    ensures Beyond(second, second, w, second) == 1 + FirstLevels(w.start + 1 - second)
  {
    hide PathLevels, FirstLevels, Levels;
    PathToFirst(w.start + 1 - second, 0);
  }

  lemma DepthBefore(w: IssueWindow, second: int)
    requires second < w.start
    ensures DepthOf(second, second, w, 0, second) == SpanLevels(w.start, w.end, second)
  {
    hide PathLevels, FirstLevels, Levels;
    BeyondBefore(w, second);
    PathToFirst(w.end - w.start, second - w.start);
  }

  lemma DepthPast(w: IssueWindow, second: int)
    requires w.start < w.end <= second && w.Splittable()
    ensures DepthOf(second, second, w, 0, second) == SpanLevels(w.start, w.end, second)
  {
    hide PathLevels, FirstLevels, Levels;
    PathToLast(w.end - w.start, second - w.start);
    PathToLast(second + 2 - w.end, second + 1 - w.end);
  }

  /** The exact condition, in spans: inside the bounds there is nothing to widen. */
  lemma OneSecondReach(all: seq<Issue>, w: IssueWindow, second: int)
    requires all != [] && (forall i | i in all :: i.created == second)
    requires w.openStart && w.openEnd && w.Splittable()
    ensures Reaches(all, w, 0) <==> SpanLevels(w.start, w.end, second) < MAX_SLICE_DEPTH
  {
    hide PathLevels, FirstLevels, Levels;
    SelectAll(all, QueryOf(w, []));
    OneSecondReaches(all, w, 0, second);
    if second < w.start {
      DepthBefore(w, second);
    } else if w.end <= second {
      DepthPast(w, second);
    }
  }
}
