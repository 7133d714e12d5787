/**
 * The layout configuration panel: the fixed table of layouts, the filter
 * that offers only the layouts suited to the number of pools, the
 * "showing X–Y of N pools" counter, the highlighting of the current layout
 * and the selection of a new one.
 */
module GridConfig {
  import opened Basics
  import Pagination

  /** One entry of the layout table. */
  datatype LayoutOption = LayoutOption(columns: int, rows: int, caption: string, minPools: int, maxPools: int)

  const L1x1 := LayoutOption(1, 1, "1×1", 1, 1)
  const L2x1 := LayoutOption(2, 1, "2×1", 2, 5)
  const L1x2 := LayoutOption(1, 2, "1×2", 2, 5)
  const L3x1 := LayoutOption(3, 1, "3×1", 3, 5)
  const L2x2 := LayoutOption(2, 2, "2×2", 3, 5)
  const L3x2 := LayoutOption(3, 2, "3×2", 4, 5)
  const L2x3 := LayoutOption(2, 3, "2×3", 4, 5)

  /** The layouts, in the order the panel lists them. */
  const LayoutOptions: seq<LayoutOption> := [L1x1, L2x1, L1x2, L3x1, L2x2, L3x2, L2x3]

  /** The table has seven distinct, renderable layouts, each with a non-empty pool range. */
  lemma LayoutTableShape()
    ensures |LayoutOptions| == 7
    ensures forall o :: o in LayoutOptions ==> 1 <= o.minPools <= o.maxPools <= 5
    ensures forall o :: o in LayoutOptions ==> Pagination.ValidGrid(Pagination.Grid(o.columns, o.rows))
    ensures forall i, j :: 0 <= i < j < |LayoutOptions| ==>
      (LayoutOptions[i].columns, LayoutOptions[i].rows) != (LayoutOptions[j].columns, LayoutOptions[j].rows)
  {
  }

  /** A layout suits `total` pools when the count lies in its range. */
  predicate Suits(o: LayoutOption, total: int) {
    o.minPools <= total <= o.maxPools
  }

  /** `options.filter(suits)`: the suitable options, in their original order. */
  function FilterSuits(options: seq<LayoutOption>, total: int): (r: seq<LayoutOption>)
    ensures |r| <= |options|
    ensures forall i :: 0 <= i < |r| ==> Suits(r[i], total)
  {
    if options == [] then []
    else
      var rest := FilterSuits(options[1..], total);
      if Suits(options[0], total) then [options[0]] + rest else rest
  }

  /** The filter keeps every suitable option and nothing else. */
  lemma {:induction false} FilterSuitsMembers(options: seq<LayoutOption>, total: int)
    ensures forall o :: o in FilterSuits(options, total) <==> o in options && Suits(o, total)
  {
    if options != [] {
      FilterSuitsMembers(options[1..], total);
      assert options == [options[0]] + options[1..];
    }
  }

  /** The layouts suited to `total` pools (`appropriateLayouts`). */
  function AppropriateLayouts(total: int): seq<LayoutOption> {
    FilterSuits(LayoutOptions, total)
  }

  /**
   * The suitable layouts for each pool count, listed by hand: one pool gets
   * the single cell; two get the two-cell layouts; three add the
   * three- and four-cell ones; four or five get every layout but 1×1; any
   * other count gets none.
   */
  function SuitableByCount(total: int): seq<LayoutOption> {
    if total == 1 then [L1x1]
    else if total == 2 then [L2x1, L1x2]
    else if total == 3 then [L2x1, L1x2, L3x1, L2x2]
    else if 4 <= total <= 5 then [L2x1, L1x2, L3x1, L2x2, L3x2, L2x3]
    else []
  }

  /** Filtering a list takes its head if it suits, then filters the tail. */
  lemma FilterSuitsCons(o: LayoutOption, rest: seq<LayoutOption>, total: int)
    ensures FilterSuits([o] + rest, total) == (if Suits(o, total) then [o] else []) + FilterSuits(rest, total)
  {
    assert ([o] + rest)[1..] == rest;
  }

  /** The option alone if it suits `total`, else nothing. */
  function Keep(o: LayoutOption, total: int): seq<LayoutOption> {
    if Suits(o, total) then [o] else []
  }

  /** The filter over the table, one option at a time. */
  lemma FilterTableStepwise(total: int)
    ensures AppropriateLayouts(total) ==
      Keep(L1x1, total) + (Keep(L2x1, total) + (Keep(L1x2, total) + (Keep(L3x1, total)
      + (Keep(L2x2, total) + (Keep(L3x2, total) + Keep(L2x3, total))))))
  {
    var t6 := [L2x3];
    var t5 := [L3x2] + t6;
    var t4 := [L2x2] + t5;
    var t3 := [L3x1] + t4;
    var t2 := [L1x2] + t3;
    var t1 := [L2x1] + t2;
    assert LayoutOptions == [L1x1] + t1;
    FilterSuitsCons(L2x3, [], total);
    assert [L2x3] + [] == t6;
    FilterSuitsCons(L3x2, t6, total);
    FilterSuitsCons(L2x2, t5, total);
    FilterSuitsCons(L3x1, t4, total);
    FilterSuitsCons(L1x2, t3, total);
    FilterSuitsCons(L2x1, t2, total);
    FilterSuitsCons(L1x1, t1, total);
  }

  /** The filter agrees with the hand-written table, order included. */
  lemma AppropriateLayoutsByCount(total: int)
    ensures AppropriateLayouts(total) == SuitableByCount(total)
  {
    FilterTableStepwise(total);
  }

  /** The layouts the panel lists: the suitable ones, or all of them when none suits. */
  function LayoutsToShow(total: int): (r: seq<LayoutOption>)
    ensures |r| > 0
    ensures r == LayoutOptions || forall i :: 0 <= i < |r| ==> Suits(r[i], total)
  {
    var appropriate := AppropriateLayouts(total);
    if |appropriate| > 0 then appropriate else LayoutOptions
  }

  /** Every suitable layout is listed, and when any layout suits, only suitable ones are. */
  lemma LayoutsToShowSuitable(total: int)
    ensures forall o :: o in LayoutOptions && Suits(o, total) ==> o in LayoutsToShow(total)
    ensures (exists o :: o in LayoutOptions && Suits(o, total)) ==>
      forall o :: o in LayoutsToShow(total) ==> o in LayoutOptions && Suits(o, total)
  {
    FilterSuitsMembers(LayoutOptions, total);
  }

  /** Every layout is listed exactly when the pool count is outside 1..5. */
  lemma ShowsAllIffNoneSuits(total: int)
    ensures LayoutsToShow(total) == LayoutOptions <==> (total < 1 || total > 5)
  {
    AppropriateLayoutsByCount(total);
  }

  /** The panel's inputs; an input the grid does not pass takes its default. */
  datatype Panel = Panel(grid: Pagination.Grid, total: int, page: int, perPage: int, open: bool)

  /** The panel as first rendered: closed, with the documented defaults for absent inputs. */
  function NewPanel(grid: Pagination.Grid, total: Option<int>, page: Option<int>, perPage: Option<int>): (p: Panel)
    ensures !p.open && p.grid == grid
    ensures total.None? ==> p.total == 8
    ensures page.None? ==> p.page == 0
    ensures perPage.None? ==> p.perPage == 0
    ensures total.Some? ==> p.total == total.value
    ensures page.Some? ==> p.page == page.value
    ensures perPage.Some? ==> p.perPage == perPage.value
  {
    Panel(grid, total.GetOr(8), page.GetOr(0), perPage.GetOr(0), false)
  }

  /**
   * The panel the grid renders, fed the screen's layout, pool count, page
   * and pools per page, counts exactly the pools that page shows.
   */
  lemma GridPanelCountsVisible<T>(s: Pagination.Screen<T>, items: seq<T>)
    requires Pagination.ValidGrid(s.grid) && s.page * Pagination.PerPage(s.grid) < |items|
    ensures var p := NewPanel(s.grid, Some(|items|), Some(s.page), Some(Pagination.PerPage(s.grid)));
      && p.grid == s.grid && !p.open
      && StartPool(p) - 1 == s.page * Pagination.PerPage(s.grid)
      && StartPool(p) <= EndPool(p) <= |items|
      && EndPool(p) - StartPool(p) + 1 == |Pagination.Visible(s, items)|
  {
    CounterMatchesPage(items, s.page, Pagination.PerPage(s.grid));
  }

  /** The 1-based number of the first pool on the current page. */
  function StartPool(p: Panel): int {
    p.page * p.perPage + 1
  }

  /** The 1-based number of the last pool on the current page, capped at the pool count. */
  function EndPool(p: Panel): (r: int)
    ensures r <= p.total
  {
    MinInt((p.page + 1) * p.perPage, p.total)
  }

  /**
   * For a page that shows at least one pool, the counter names exactly the
   * pools of that page: it starts just after the earlier pages, ends within
   * the list, and spans as many pools as the grid renders.
   */
  lemma CounterMatchesPage<T>(items: seq<T>, page: nat, per: nat)
    requires per >= 1 && page * per < |items|
    ensures var p := Panel(Pagination.Grid(1, 1), |items|, page, per, false);
      && StartPool(p) - 1 == page * per
      && StartPool(p) <= EndPool(p) <= |items|
      && EndPool(p) - StartPool(p) + 1 == |Pagination.PageSlice(items, page, per)|
  {
    var p := Panel(Pagination.Grid(1, 1), |items|, page, per, false);
    assert (page + 1) * per == page * per + per;
  }

  /**
   * With no pools at all the counter reads "1-0 of 0": the first pool
   * number exceeds the last.
   */
  lemma EmptyCounterIsBackwards(grid: Pagination.Grid, per: nat)
    requires per >= 1
    ensures var p := Panel(grid, 0, 0, per, false);
      StartPool(p) == 1 && EndPool(p) == 0 && StartPool(p) > EndPool(p)
  {
  }

  /**
   * The counter as evidently intended: the 1-based range of the pools the
   * page shows, and (0, 0) when it shows none.
   */
  function ShownRange(p: Panel): (r: (int, int))
    requires p.page >= 0 && p.perPage >= 1
    ensures r.0 <= r.1 <= MaxInt0(p.total)
    ensures r.0 == 0 <==> p.page * p.perPage >= p.total
  {
    if p.page * p.perPage >= p.total then (0, 0)
    else
      assert (p.page + 1) * p.perPage == p.page * p.perPage + p.perPage;
      (StartPool(p), EndPool(p))
  }

  function MaxInt0(n: int): nat {
    if n < 0 then 0 else n
  }

  /** The corrected counter spans exactly the pools on screen, also when there are none. */
  lemma ShownRangeMatchesPage<T>(items: seq<T>, page: nat, per: nat)
    requires per >= 1
    ensures var r := ShownRange(Panel(Pagination.Grid(1, 1), |items|, page, per, false));
      && (r.1 - r.0 + (if r.0 == 0 then 0 else 1)) == |Pagination.PageSlice(items, page, per)|
      && (r.0 > 0 ==> r.0 - 1 == page * per)
  {
    if page * per < |items| {
      CounterMatchesPage(items, page, per);
    }
  }

  /** The layout button for `columns` × `rows` is highlighted exactly when it is the current layout. */
  function IsActive(p: Panel, columns: int, rows: int): (b: bool)
    ensures b <==> p.grid == Pagination.Grid(columns, rows)
  {
    p.grid.columns == columns && p.grid.rows == rows
  }

  /** Among the listed layouts, at most one is highlighted. */
  lemma AtMostOneActive(p: Panel)
    ensures forall i, j :: 0 <= i < j < |LayoutOptions| ==>
      !(IsActive(p, LayoutOptions[i].columns, LayoutOptions[i].rows) && IsActive(p, LayoutOptions[j].columns, LayoutOptions[j].rows))
  {
    LayoutTableShape();
  }

  /** The settings button opens or closes the panel. */
  function TogglePanel(p: Panel): (r: Panel)
    ensures r.open != p.open
    ensures r.(open := p.open) == p
  {
    p.(open := !p.open)
  }

  /** Clicking the backdrop closes the panel. */
  function CloseBackdrop(p: Panel): (r: Panel)
    ensures !r.open && r.(open := p.open) == p
  {
    p.(open := false)
  }

  /**
   * Choosing a layout: reports exactly that layout's columns and rows to the
   * grid and closes the panel.
   */
  function SelectLayout(p: Panel, o: LayoutOption): (r: (Pagination.Grid, Panel))
    ensures r.0.columns == o.columns && r.0.rows == o.rows
    ensures !r.1.open && r.1.(open := p.open) == p
  {
    (Pagination.Grid(o.columns, o.rows), p.(open := false))
  }

  /** Once the grid adopts the chosen layout, that layout's button is the highlighted one. */
  lemma SelectedBecomesActive(p: Panel, o: LayoutOption)
    ensures var (g, q) := SelectLayout(p, o);
      IsActive(q.(grid := g), o.columns, o.rows)
  {
  }
}
