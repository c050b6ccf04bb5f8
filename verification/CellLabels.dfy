/** The labels of facet cells, which are part of what tells their truncation records apart. */
module CellLabels {
  import opened Wrappers
  import opened Windows

  function FacetName(f: Facet): (name: string) {
    match f
    case Types => "types"
    case Severities => "severities"
    case ImpactSoftwareQualities => "impactSoftwareQualities"
    case ImpactSeverities => "impactSeverities"
    case Rules => "rules"
    case Directories => "directories"
    case Files => "files"
  }

  function FilterLabel(f: Filter): (text: string) {
    FacetName(f.0) + "=" + f.1
  }

  function Separated(text: string): (start: string) {
    if text == "" then "" else text + " "
  }

  function CellLabel(filters: seq<Filter>): (text: string) {
    if filters == [] then ""
    else
      var before, last := CellLabel(filters[..|filters| - 1]), filters[|filters| - 1];
      if last.1 == "" then before
      else Separated(before) + FilterLabel(last)
  }

  /** The facet a cell of this one is split by next. */
  function NextFacet(f: Facet): (next: Option<Facet>) {
    match f
    case Types => Some(Severities)
    case ImpactSoftwareQualities => Some(ImpactSeverities)
    case Severities => Some(Rules)
    case ImpactSeverities => Some(Rules)
    case Rules => Some(Directories)
    case Directories => Some(Files)
    case Files => None
  }

  /** How a cell of facet `f` can be narrowed further. */
  predicate Continues(f: Facet, rest: seq<Filter>) {
    && (forall k | 0 <= k < |rest| :: rest[k].1 != "")
    && (rest != [] ==> NextFacet(f) == Some(rest[0].0))
  }

  /** What narrowing adds to a label. */
  function Suffix(rest: seq<Filter>): (text: string) {
    if rest == [] then "" else Suffix(rest[..|rest| - 1]) + (" " + FilterLabel(rest[|rest| - 1]))
  }

  lemma Regroup(a: string, b: string, c: string)
    ensures (a + b) + c == a + (b + c)
  {
  }

  lemma OneMoreWord(a: string, b: string, word: string)
    requires a != ""
    ensures Separated(a + b) + word == a + (b + (" " + word))
  {
    Regroup(a + b, " ", word);
    Regroup(a, b, " " + word);
  }

  lemma SuffixOfLast(init: seq<Filter>, last: Filter)
    ensures Suffix(init + [last]) == Suffix(init) + (" " + FilterLabel(last))
  {
    hide FilterLabel;
    assert (init + [last])[..|init + [last]| - 1] == init;
  }

  /** One filter more puts a space, unless it is the first, and the filter. */
  lemma LabelOfLast(cell: seq<Filter>, f: Filter)
    requires f.1 != ""
    ensures CellLabel(cell + [f]) == Separated(CellLabel(cell)) + FilterLabel(f)
  {
    hide FilterLabel;
    assert (cell + [f])[..|cell + [f]| - 1] == cell;
  }

  lemma LabelStep(cell: seq<Filter>, init: seq<Filter>, last: Filter)
    requires CellLabel(cell) != "" && last.1 != "" && CellLabel(cell + init) == CellLabel(cell) + Suffix(init)
    ensures CellLabel((cell + init) + [last]) == CellLabel(cell) + Suffix(init + [last])
  {
    hide CellLabel, Suffix, FilterLabel, Separated;
    LabelOfLast(cell + init, last);
    SuffixOfLast(init, last);
    OneMoreWord(CellLabel(cell), Suffix(init), FilterLabel(last));
  }

  lemma AppendLast(a: seq<Filter>, b: seq<Filter>)
    requires b != []
    ensures b == b[..|b| - 1] + [b[|b| - 1]] && a + b == (a + b[..|b| - 1]) + [b[|b| - 1]]
  {
  }

  lemma {:induction false} LabelContinues(cell: seq<Filter>, rest: seq<Filter>)
    requires CellLabel(cell) != "" && (forall k | 0 <= k < |rest| :: rest[k].1 != "")
    ensures CellLabel(cell + rest) == CellLabel(cell) + Suffix(rest)
  {
    if rest == [] {
      assert cell + rest == cell;
    } else {
      hide CellLabel, Suffix, FilterLabel, Separated;
      var init, last := rest[..|rest| - 1], rest[|rest| - 1];
      LabelContinues(cell, init);
      LabelStep(cell, init, last);
      AppendLast(cell, rest);
    }
  }

  lemma {:induction false} SuffixNamesNextFacet(rest: seq<Filter>)
    requires rest != []
    ensures Mark(rest[0].0) <= Suffix(rest)
  {
    if |rest| == 1 {
      assert rest[..0] == [] && Suffix([]) == "";
      assert Suffix(rest) == Mark(rest[0].0) + rest[0].1;
    } else {
      SuffixNamesNextFacet(rest[..|rest| - 1]);
    }
  }

  /** What precedes a value of a facet in the label of a cell narrowed by it. */
  function Mark(f: Facet): (text: string) {
    " " + FacetName(f) + "="
  }

  lemma MarkIsOneWord(f: Facet)
    ensures Mark(f)[0] == ' ' && forall k | 1 <= k < |Mark(f)| :: Mark(f)[k] != ' '
  {
    assert ' ' !in FacetName(f);
  }

  lemma SameAfterStem(stem: string, x: string, y: string)
    requires stem + x == stem + y
    ensures x == y
  {
    assert (stem + x)[|stem|..] == x && (stem + y)[|stem|..] == y;
  }

  /** The longer of two values, with the same text following in the end, begins with the shorter and its mark. */
  lemma LongerValue(d: string, e: string, mark: string, x: string, y: string)
    requires d != e && |d| <= |e| && d + x == e + y
    requires mark != "" && (forall k | 1 <= k < |mark| :: mark[k] != ' ')
    requires x == "" || mark <= x
    requires y == "" || y[0] == ' '
    ensures x != "" && d + mark <= e
  {
    var whole := d + x;
    assert whole[..|d|] == d && whole[..|e|] == e;
    assert whole[|d|..] == x && whole[|e|..] == y;
    assert x != "";
    assert forall k | 0 <= k < |mark| :: whole[|d| + k] == mark[k];
    assert y != "" ==> whole[|e|] == ' ';
    assert |d| + |mark| <= |e|;
    assert (d + mark) == e[..|d| + |mark|];
  }

  /** The second value reads like the first one, narrowed by the next facet. */
  predicate ReadsOn(f: Facet, d: string, e: string) {
    NextFacet(f).Some? && d + Mark(NextFacet(f).value) <= e
  }

  function ValueCell(outer: seq<Filter>, f: Facet, val: string): (cell: seq<Filter>) {
    outer + [(f, val)]
  }

  /** What precedes the values of a facet in the labels of its cells. */
  function Stem(outer: seq<Filter>, f: Facet): (text: string) {
    Separated(CellLabel(outer)) + (FacetName(f) + "=")
  }

  lemma LabelOfCell(outer: seq<Filter>, f: Facet, val: string, rest: seq<Filter>)
    requires val != "" && (forall k | 0 <= k < |rest| :: rest[k].1 != "")
    ensures CellLabel(ValueCell(outer, f, val) + rest) == Stem(outer, f) + (val + Suffix(rest))
  {
    hide FacetName, CellLabel, Suffix;
    var cell, name := ValueCell(outer, f, val), FacetName(f) + "=";
    LabelOfLast(outer, (f, val));
    Regroup(Separated(CellLabel(outer)), name, val);
    assert CellLabel(cell) == Stem(outer, f) + val;
    LabelContinues(cell, rest);
    Regroup(Stem(outer, f), val, Suffix(rest));
  }

  lemma SharedLabelReadsOn(outer: seq<Filter>, f: Facet, d: string, e: string, r: seq<Filter>, t: seq<Filter>)
    requires d != "" && e != "" && d != e && |d| <= |e| && Continues(f, r) && Continues(f, t)
    requires CellLabel(ValueCell(outer, f, d) + r) == CellLabel(ValueCell(outer, f, e) + t)
    ensures ReadsOn(f, d, e)
  {
    LabelOfCell(outer, f, d, r);
    LabelOfCell(outer, f, e, t);
    SameAfterStem(Stem(outer, f), d + Suffix(r), e + Suffix(t));
    if t != [] {
      SuffixNamesNextFacet(t);
      MarkIsOneWord(t[0].0);
    }
    var g := if NextFacet(f).Some? then NextFacet(f).value else f;
    MarkIsOneWord(g);
    if r != [] {
      SuffixNamesNextFacet(r);
    }
    LongerValue(d, e, Mark(g), Suffix(r), Suffix(t));
  }

  /** Two cells, of different values of a facet in one outer cell, with one label. */
  ghost predicate ShareLabel(outer: seq<Filter>, f: Facet, d: string, e: string) {
    exists r, t :: Continues(f, r) && Continues(f, t)
                   && CellLabel(ValueCell(outer, f, d) + r) == CellLabel(ValueCell(outer, f, e) + t)
  }

  /**
   * Cells of different values of a facet can have one label exactly when one value
   * reads like the other one, narrowed by the next facet.
   */
  lemma CellLabelsCollide(outer: seq<Filter>, f: Facet, d: string, e: string)
    requires d != "" && e != "" && d != e
    ensures ShareLabel(outer, f, d, e) <==> ReadsOn(f, d, e) || ReadsOn(f, e, d)
  {
    if ShareLabel(outer, f, d, e) {
      var r, t :| Continues(f, r) && Continues(f, t)
                  && CellLabel(ValueCell(outer, f, d) + r) == CellLabel(ValueCell(outer, f, e) + t);
      if |d| <= |e| {
        SharedLabelReadsOn(outer, f, d, e, r, t);
      } else {
        SharedLabelReadsOn(outer, f, e, d, t, r);
      }
    }
    if ReadsOn(f, d, e) {
      ReadingOnShares(outer, f, d, e);
    }
    if ReadsOn(f, e, d) {
      ReadingOnShares(outer, f, e, d);
      var r, t :| Continues(f, r) && Continues(f, t)
                  && CellLabel(ValueCell(outer, f, e) + r) == CellLabel(ValueCell(outer, f, d) + t);
      assert Continues(f, t) && Continues(f, r);
    }
  }

  lemma ReadingOnShares(outer: seq<Filter>, f: Facet, d: string, e: string)
    requires d != "" && ReadsOn(f, d, e)
    ensures ShareLabel(outer, f, d, e)
  {
    hide CellLabel, Suffix, Mark, Stem, FacetName;
    var g := NextFacet(f).value;
    var v := e[|d + Mark(g)|..] + (Mark(g) + "m");
    LabelOfCell(outer, f, d, [(g, v)]);
    LabelOfCell(outer, f, e, [(g, "m")]);
    SuffixOfOne(g, v);
    SuffixOfOne(g, "m");
    ReadOn(d, Mark(g), e, "m");
    assert Continues(f, [(g, v)]) && Continues(f, [(g, "m")]);
  }

  lemma ReadOn(d: string, mark: string, e: string, last: string)
    requires d + mark <= e
    ensures d + (mark + (e[|d + mark|..] + (mark + last))) == e + (mark + last)
  {
    var tail := e[|d + mark|..];
    assert e == (d + mark) + tail;
    Regroup(d + mark, tail, mark + last);
    Regroup(d, mark, tail + (mark + last));
  }

  lemma SuffixOfOne(g: Facet, val: string)
    ensures Suffix([(g, val)]) == Mark(g) + val
  {
    assert [(g, val)][..0] == [] && Suffix([]) == "";
  }
}
