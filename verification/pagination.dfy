/**
 * The paginated pool grid: how many pools fit on a page, how many pages
 * there are, which pools a page shows, and the small state machine that
 * moves between pages (next/previous buttons, arrow keys, page dots and the
 * auto-rotate timer), resets the page when the layout changes, and opens or
 * closes the detail modal.
 */
module Pagination {
  import opened Basics

  /** A grid layout: `columns` × `rows` cards per page. */
  datatype Grid = Grid(columns: int, rows: int)

  /** The layout used when none has been saved. */
  const DefaultGrid := Grid(2, 1)

  /** Layouts the grid can render; the saved layout is assumed to be one. */
  predicate ValidGrid(g: Grid) {
    g.columns >= 1 && g.rows >= 1
  }

  /** Number of pools shown on one page (`maxPiscinas`). */
  function PerPage(g: Grid): (r: nat)
    requires ValidGrid(g)
    ensures r >= g.columns && r >= g.rows
  {
    MulAtLeast(g.columns, g.rows);
    g.columns * g.rows
  }

  lemma MulAtLeast(a: int, b: int)
    requires a >= 1 && b >= 1
    ensures a * b >= a && a * b >= b
  {
  }

  /**
   * `Math.ceil(n / perPage)`: the least number of pages of `per` items that
   * holds all n items; no pages at all for an empty list.
   */
  function TotalPages(n: nat, per: nat): (r: nat)
    requires per >= 1
    ensures n <= r * per
    ensures r == 0 || (r - 1) * per < n
    ensures r == 0 <==> n == 0
  {
    if n == 0 then 0
    else
      var q := (n - 1) / per;
      assert q * per + (n - 1) % per == n - 1;
      assert (q + 1) * per == q * per + per;
      q + 1
  }

  /** The pagination controls are shown only when there is more than one page. */
  function ShowPagination(total: nat): bool {
    total > 1
  }

  /**
   * `items.slice(start, end)` for non-negative bounds: JavaScript clamps both
   * ends to the list, so a range past the end is empty rather than an error.
   */
  function Slice<T>(items: seq<T>, start: nat, end: nat): (r: seq<T>)
    ensures |r| == (if start >= |items| || end <= start then 0 else MinInt(end, |items|) - start)
    ensures forall i :: 0 <= i < |r| ==> start + i < |items| && r[i] == items[start + i]
  {
    var lo := MinInt(start, |items|);
    var hi := MinInt(end, |items|);
    if hi <= lo then [] else items[lo..hi]
  }

  /** The pools of page `page`, `per` to a page. */
  function PageSlice<T>(items: seq<T>, page: nat, per: nat): (r: seq<T>)
    ensures |r| <= per
    ensures forall i :: 0 <= i < |r| ==> page * per + i < |items| && r[i] == items[page * per + i]
    ensures page * per + per <= |items| ==> |r| == per
    ensures page * per < |items| ==> page * per + |r| == MinInt(page * per + per, |items|)
    ensures page * per >= |items| ==> r == []
  {
    var start := page * per;
    Slice(items, start, start + per)
  }

  /** The pages 0 .. k-1, concatenated in page order. */
  function PagesUpTo<T>(items: seq<T>, per: nat, k: nat): seq<T>
  {
    if k == 0 then [] else PagesUpTo(items, per, k - 1) + PageSlice(items, k - 1, per)
  }

  /** A prefix of the list followed by the slice after it is a longer prefix. */
  lemma PrefixThenSlice<T>(items: seq<T>, a: nat, per: nat)
    ensures items[..MinInt(a, |items|)] + Slice(items, a, a + per) == items[..MinInt(a + per, |items|)]
  {
  }

  /** The first k pages together are exactly the first k·per items (or all of them). */
  lemma {:induction false} PagesUpToIsPrefix<T>(items: seq<T>, per: nat, k: nat)
    ensures PagesUpTo(items, per, k) == items[..MinInt(k * per, |items|)]
  {
    if k > 0 {
      PagesUpToIsPrefix(items, per, k - 1);
      var a := (k - 1) * per;
      assert a + per == k * per;
      assert PageSlice(items, k - 1, per) == Slice(items, a, a + per);
      PrefixThenSlice(items, a, per);
    }
  }

  /** Paging through every page shows every pool exactly once, in list order. */
  lemma AllPagesCoverList<T>(items: seq<T>, per: nat)
    requires per >= 1
    ensures PagesUpTo(items, per, TotalPages(|items|, per)) == items
  {
    var k := TotalPages(|items|, per);
    PagesUpToIsPrefix(items, per, k);
    assert items[..|items|] == items;
  }

  /** Pool i appears on page i / per, at position i % per. */
  lemma PoolOnItsPage<T>(items: seq<T>, per: nat, i: nat)
    requires per >= 1 && i < |items|
    ensures i / per < TotalPages(|items|, per)
    ensures i % per < |PageSlice(items, i / per, per)|
    ensures PageSlice(items, i / per, per)[i % per] == items[i]
  {
    var p := i / per;
    var q := i % per;
    assert p * per + q == i && q < per;
    var total := TotalPages(|items|, per);
    if total <= p {
      MulMonotone(total, p, per);
      assert false;
    }
    var page := PageSlice(items, p, per);
    assert p * per + |page| == MinInt(p * per + per, |items|);
  }

  lemma MulMonotone(a: nat, b: nat, c: nat)
    requires a <= b
    ensures a * c <= b * c
  {
  }

  /** The next-page button: advances unless already on the last page. */
  function NextPage(page: nat, total: nat): (r: nat)
    ensures page <= r <= page + 1
    ensures r == page + 1 <==> page + 1 < total
  {
    if page < total - 1 then page + 1 else page
  }

  /** The previous-page button: goes back unless already on the first page. */
  function PrevPage(page: nat): (r: nat)
    ensures r <= page && page <= r + 1
    ensures r + 1 == page <==> page > 0
  {
    if page > 0 then page - 1 else page
  }

  /** A page number that the grid can show: some page, or page 0 when there is none. */
  predicate PageInRange(page: nat, total: nat) {
    page < total || page == 0
  }

  /** Both buttons keep the page in range, and each undoes the other where it moves. */
  lemma NextPrevRoundTrip(page: nat, total: nat)
    requires PageInRange(page, total)
    ensures PageInRange(NextPage(page, total), total)
    ensures PageInRange(PrevPage(page), total)
    ensures page + 1 < total ==> PrevPage(NextPage(page, total)) == page
    ensures page > 0 ==> NextPage(PrevPage(page), total) == page
  {
  }

  /** A button is disabled exactly when pressing it would not change the page. */
  lemma DisabledIffNoOp(page: nat, total: nat)
    requires page < total
    ensures (page == 0) <==> (PrevPage(page) == page)
    ensures (page == total - 1) <==> (NextPage(page, total) == page)
  {
  }

  /** The auto-rotate timer runs only when switched on and there is more than one page. */
  predicate RotationArmed(enabled: bool, total: nat) {
    enabled && total > 1
  }

  /** One auto-rotate tick: the following page, wrapping to the first after the last. */
  function RotateStep(page: nat, total: nat): (r: nat)
    requires total >= 1
    ensures r < total
    ensures page + 1 < total ==> r == page + 1
    ensures page + 1 >= total ==> r == 0
  {
    var next := page + 1;
    if next >= total then 0 else next
  }

  /** k auto-rotate ticks in a row. */
  function Rotate(page: nat, total: nat, k: nat): nat
    requires total >= 1
  {
    if k == 0 then page else RotateStep(Rotate(page, total, k - 1), total)
  }

  /** Before reaching the last page, k ticks simply advance the page by k. */
  lemma {:induction false} RotateAdvances(page: nat, total: nat, k: nat)
    requires page + k < total
    ensures Rotate(page, total, k) == page + k
  {
    if k > 0 {
      RotateAdvances(page, total, k - 1);
    }
  }

  /** a ticks followed by b ticks are a + b ticks. */
  lemma {:induction false} RotateCompose(page: nat, total: nat, a: nat, b: nat)
    requires total >= 1
    ensures Rotate(Rotate(page, total, a), total, b) == Rotate(page, total, a + b)
  {
    if b > 0 {
      RotateCompose(page, total, a, b - 1);
    }
  }

  /** Auto-rotation visits every page and comes back after exactly `total` ticks. */
  lemma RotationIsCyclic(page: nat, total: nat)
    requires page < total
    ensures Rotate(page, total, total) == page
    ensures forall k: nat :: k < total ==> Rotate(0, total, k) == k
  {
    RotateAdvances(page, total, total - page - 1);
    assert Rotate(page, total, total - page) == 0;
    RotateAdvances(0, total, page);
    RotateCompose(page, total, total - page, page);
    forall k: nat | k < total
      ensures Rotate(0, total, k) == k
    {
      RotateAdvances(0, total, k);
    }
  }

  /** A key the grid listens for. */
  datatype Key = Escape | ArrowLeft | ArrowRight | OtherKey

  /**
   * The grid's UI state. `selected` is the pool shown in the modal; `toast`
   * is the "leave fullscreen to see details" hint; `rotateSeconds` is the
   * auto-rotate period.
   */
  datatype Screen<T> = Screen(
    page: nat,
    grid: Grid,
    modalOpen: bool,
    selected: Option<T>,
    fullscreen: bool,
    toast: bool,
    autoRotate: bool,
    rotateSeconds: int)

  /** The state on first render, with the saved (or default) layout. */
  function Initial<T>(grid: Grid): (s: Screen<T>)
    ensures s.page == 0 && !s.modalOpen && s.selected == None
    ensures !s.fullscreen && !s.autoRotate && s.rotateSeconds == 30
    ensures s.grid == grid && !s.toast
  {
    Screen(0, grid, false, None, false, false, false, 30)
  }

  /** The number of pages for `n` pools under the screen's layout. */
  function PageCount<T>(s: Screen<T>, n: nat): nat
    requires ValidGrid(s.grid)
  {
    TotalPages(n, PerPage(s.grid))
  }

  /** The pools the grid renders. */
  function Visible<T>(s: Screen<T>, items: seq<T>): seq<T>
    requires ValidGrid(s.grid)
  {
    PageSlice(items, s.page, PerPage(s.grid))
  }

  /** Choosing a layout; a different column or row count sends the grid back to page 0. */
  function ChangeGrid<T>(s: Screen<T>, g: Grid): (r: Screen<T>)
    ensures r.grid == g
    ensures r.page == (if g.columns != s.grid.columns || g.rows != s.grid.rows then 0 else s.page)
    ensures r.(page := s.page, grid := s.grid) == s
  {
    s.(grid := g, page := if g != s.grid then 0 else s.page)
  }

  /** The next-page button or right arrow. */
  function Next<T>(s: Screen<T>, n: nat): Screen<T>
    requires ValidGrid(s.grid)
  {
    s.(page := NextPage(s.page, PageCount(s, n)))
  }

  /** The previous-page button or left arrow. */
  function Prev<T>(s: Screen<T>): Screen<T> {
    s.(page := PrevPage(s.page))
  }

  /** A page-number dot. */
  function GoToPage<T>(s: Screen<T>, index: nat): (r: Screen<T>)
    ensures r.page == index
    ensures r.(page := s.page) == s
  {
    s.(page := index)
  }

  /** One tick of the auto-rotate timer; nothing happens while it is not armed. */
  function Tick<T>(s: Screen<T>, n: nat): (r: Screen<T>)
    requires ValidGrid(s.grid)
    ensures RotationArmed(s.autoRotate, PageCount(s, n)) ==> r.page == RotateStep(s.page, PageCount(s, n))
    ensures RotationArmed(s.autoRotate, PageCount(s, n)) ==> r.page < PageCount(s, n)
    ensures !RotationArmed(s.autoRotate, PageCount(s, n)) ==> r == s
    ensures r.(page := s.page) == s
  {
    var total := PageCount(s, n);
    if RotationArmed(s.autoRotate, total) then s.(page := RotateStep(s.page, total)) else s
  }

  /**
   * A key press. Returns the new state and whether the browser default was
   * suppressed. Escape in fullscreen only leaves fullscreen; while the modal
   * is open or the grid is fullscreen the arrows are ignored; otherwise the
   * arrows page backwards and forwards.
   */
  function KeyDown<T>(s: Screen<T>, key: Key, n: nat): (r: (Screen<T>, bool))
    requires ValidGrid(s.grid)
  {
    if key == Escape && s.fullscreen then (s.(fullscreen := false), true)
    else if s.modalOpen || s.fullscreen then (s, false)
    else if key == ArrowLeft then (Prev(s), true)
    else if key == ArrowRight then (Next(s, n), true)
    else (s, false)
  }

  /**
   * What a key press can do: only the page and the fullscreen flag change;
   * fullscreen can only be left, and only by Escape; the page moves by at
   * most one, and only with an arrow while neither modal nor fullscreen is
   * up; the default is suppressed exactly when the handler acts on the key:
   * Escape in fullscreen, or an arrow with neither modal nor fullscreen up
   * (also when the page cannot move further).
   */
  lemma KeyDownEffects<T>(s: Screen<T>, key: Key, n: nat)
    requires ValidGrid(s.grid)
    ensures var (r, prevented) := KeyDown(s, key, n);
      && r.(page := s.page, fullscreen := s.fullscreen) == s
      && (r.fullscreen != s.fullscreen <==> key == Escape && s.fullscreen)
      && (r.fullscreen ==> s.fullscreen)
      && (r.page != s.page ==> (key == ArrowLeft || key == ArrowRight) && !s.modalOpen && !s.fullscreen)
      && (r.page == s.page + 1 || r.page == s.page || r.page + 1 == s.page)
      && (key == ArrowLeft && !s.modalOpen && !s.fullscreen ==> r.page == PrevPage(s.page))
      && (key == ArrowRight && !s.modalOpen && !s.fullscreen ==> r.page == NextPage(s.page, PageCount(s, n)))
      && (prevented <==> (key == Escape && s.fullscreen) || ((key == ArrowLeft || key == ArrowRight) && !s.modalOpen && !s.fullscreen))
  {
  }

  /** Clicking a card opens the modal on it, or in fullscreen only shows the hint. */
  function CardClick<T>(s: Screen<T>, pool: T): (r: Screen<T>)
    ensures s.fullscreen ==> r == s.(toast := true)
    ensures !s.fullscreen ==> r.modalOpen && r.selected == Some(pool) && r.page == s.page
  {
    if s.fullscreen then s.(toast := true) else s.(selected := Some(pool), modalOpen := true)
  }

  /** Closing the modal clears the selection. */
  function CloseModal<T>(s: Screen<T>): (r: Screen<T>)
    ensures !r.modalOpen && r.selected == None
    ensures r.(modalOpen := s.modalOpen, selected := s.selected) == s
  {
    s.(modalOpen := false, selected := None)
  }

  /** The hint disappears when its timer fires. */
  function HideToast<T>(s: Screen<T>): (r: Screen<T>)
    ensures !r.toast
    ensures r.(toast := s.toast) == s
  {
    s.(toast := false)
  }

  /** In fullscreen, a card click followed by the hint's timeout leaves the screen as it was. */
  lemma HintThenHideRestores<T>(s: Screen<T>, pool: T)
    requires s.fullscreen && !s.toast
    ensures HideToast(CardClick(s, pool)) == s
  {
  }

  /** Opening a pool's details and closing them again returns to the state before. */
  lemma OpenThenCloseRestores<T>(s: Screen<T>, pool: T)
    requires !s.modalOpen && s.selected == None
    ensures CloseModal(CardClick(s, pool)) == (if s.fullscreen then s.(toast := true) else s)
  {
  }

  /** The switch on the configuration panel. */
  function ToggleAutoRotate<T>(s: Screen<T>): (r: Screen<T>)
    ensures r.autoRotate != s.autoRotate
    ensures r.(autoRotate := s.autoRotate) == s
  {
    s.(autoRotate := !s.autoRotate)
  }

  /** Flipping the switch twice leaves everything as it was. */
  lemma ToggleAutoRotateTwice<T>(s: Screen<T>)
    ensures ToggleAutoRotate(ToggleAutoRotate(s)) == s
  {
  }

  /** The period picker. */
  function SetRotateSeconds<T>(s: Screen<T>, seconds: int): (r: Screen<T>)
    ensures r.rotateSeconds == seconds
    ensures r.(rotateSeconds := s.rotateSeconds) == s
  {
    s.(rotateSeconds := seconds)
  }

  /**
   * The auto-rotate settings handed to the configuration panel: present
   * exactly when the pagination controls are shown. This holds outside
   * fullscreen only; in fullscreen the panel is not rendered at all.
   */
  function AutoRotateProps<T>(s: Screen<T>, n: nat): (r: Option<(bool, int)>)
    requires ValidGrid(s.grid)
    ensures r.Some? <==> PageCount(s, n) > 1
    ensures r.Some? ==> r.value == (s.autoRotate, s.rotateSeconds)
  {
    if ShowPagination(PageCount(s, n)) then Some((s.autoRotate, s.rotateSeconds)) else None
  }

  /** A screen whose page is in range for n pools. */
  predicate WellFormed<T>(s: Screen<T>, n: nat) {
    ValidGrid(s.grid) && PageInRange(s.page, PageCount(s, n))
  }

  /** The page-dot targets: one per page. */
  predicate DotTarget<T>(s: Screen<T>, n: nat, index: nat)
    requires ValidGrid(s.grid)
  {
    index < PageCount(s, n)
  }

  /** Every step of the state machine keeps the page in range while the pool count stays put. */
  lemma StepsKeepPageInRange<T>(s: Screen<T>, n: nat, key: Key, g: Grid, pool: T, index: nat)
    requires WellFormed(s, n)
    ensures WellFormed(Next(s, n), n)
    ensures WellFormed(Prev(s), n)
    ensures WellFormed(Tick(s, n), n)
    ensures WellFormed(KeyDown(s, key, n).0, n)
    ensures ValidGrid(g) ==> WellFormed(ChangeGrid(s, g), n)
    ensures WellFormed(CardClick(s, pool), n)
    ensures WellFormed(CloseModal(s), n)
    ensures DotTarget(s, n, index) ==> WellFormed(GoToPage(s, index), n)
  {
    NextPrevRoundTrip(s.page, PageCount(s, n));
  }

  /** On a page in range with at least one pool, the grid shows at least one card. */
  lemma InRangePageIsNonEmpty<T>(s: Screen<T>, items: seq<T>)
    requires WellFormed(s, |items|) && |items| > 0
    ensures |Visible(s, items)| >= 1
  {
    var per := PerPage(s.grid);
    var total := PageCount(s, |items|);
    assert (total - 1) * per < |items|;
    MulMonotone(s.page, total - 1, per);
  }

  /**
   * The page is not re-clamped when the pool list shrinks: on the third page
   * of five pools two per page, a refresh that leaves two pools shows an
   * empty grid with the pagination controls hidden.
   */
  lemma ShrinkLeavesStalePage()
    ensures var s: Screen<int> := Initial<int>(DefaultGrid).(page := 2);
      && WellFormed(s, 5)
      && !WellFormed(s, 2)
      && Visible(s, [10, 20]) == []
      && !ShowPagination(PageCount(s, 2))
  {
    var s: Screen<int> := Initial<int>(DefaultGrid).(page := 2);
    assert PageCount(s, 5) == 3;
    assert PageCount(s, 2) == 1;
  }
}
