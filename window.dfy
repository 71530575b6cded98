/**
 * Virtual scrolling: which rows of the filtered view are materialised for a
 * given scroll offset and container height, where each row sits, how the
 * highlight moves between rendered rows, and how far the list scrolls to
 * reveal the keyboard selection.
 */
module Window {

  import opened Basics
  import opened Catalogue

  /** Pixel height of one list row. */
  const ITEM_HEIGHT: nat := 52
  /** Rows rendered beyond each edge of the visible range. */
  const BUFFER: nat := 5

  /** The half-open index range `[start, end)` of the view that is rendered. */
  datatype ViewportWindow = ViewportWindow(start: nat, end: nat)

  /** `Math.ceil(a / b)` for non-negative integers. */
  function CeilDiv(a: nat, b: nat): (r: nat)
    requires b > 0
    ensures (r - 1) * b < a <= r * b
  {
    (a + b - 1) / b
  }

  /** `visibleCount`: the rows that fit in the container plus the buffer on both ends. */
  function VisibleCount(h: nat): nat
  {
    CeilDiv(h, ITEM_HEIGHT) + 2 * BUFFER
  }

  /** Height of the scrollable inner container holding `n` rows. */
  function InnerHeight(n: nat): nat
  {
    n * ITEM_HEIGHT
  }

  /** The largest scroll offset the browser allows over a list of `n` rows in a container of height `h`. */
  function MaxScroll(n: nat, h: nat): nat
  {
    if InnerHeight(n) > h then InnerHeight(n) - h else 0
  }

  /** The browser's clamping of an assigned scroll offset. */
  function ClampScroll(top: int, n: nat, h: nat): (r: nat)
    ensures r <= MaxScroll(n, h)
    ensures 0 <= top <= MaxScroll(n, h) ==> r == top
    ensures top < 0 ==> r == 0
    ensures top > MaxScroll(n, h) ==> r == MaxScroll(n, h)
  {
    if top < 0 then 0 else if top > MaxScroll(n, h) then MaxScroll(n, h) else top
  }

  /**
   * The window for `n` rows, scroll offset `top` and container height `h`:
   * `startIndex = max(0, floor(top / 52) - 5)` and
   * `endIndex = min(n, startIndex + visibleCount)`.
   */
  function WindowAt(n: nat, top: nat, h: nat): (w: ViewportWindow)
    ensures w.end <= n
    ensures w.start <= w.end ==> w.end - w.start <= VisibleCount(h)
    ensures top <= InnerHeight(n) ==> w.start <= w.end
  {
    var first := if top / ITEM_HEIGHT >= BUFFER then top / ITEM_HEIGHT - BUFFER else 0;
    ViewportWindow(first, if n < first + VisibleCount(h) then n else first + VisibleCount(h))
  }

  /** Row `i`, spanning `[i*52, i*52+52)`, overlaps the visible pixel range `[top, top+h)`. */
  predicate RowOverlaps(i: nat, top: nat, h: nat)
  {
    i * ITEM_HEIGHT < top + h && top < i * ITEM_HEIGHT + ITEM_HEIGHT
  }

  /** Every row that is at least partly visible is rendered. */
  lemma WindowCoversVisibleRows(n: nat, top: nat, h: nat, i: nat)
    requires i < n && RowOverlaps(i, top, h)
    ensures WindowAt(n, top, h).start <= i < WindowAt(n, top, h).end
  {
    var w := WindowAt(n, top, h);
    var q := top / ITEM_HEIGHT;
    var c := CeilDiv(h, ITEM_HEIGHT);
    assert q * ITEM_HEIGHT <= top < q * ITEM_HEIGHT + ITEM_HEIGHT;
    assert q <= i;
    assert i < q + 1 + c;
  }

  /**
   * The rendered rows span the visible pixel range: the first starts at or above
   * `top`, and the last ends at or below `top + h` unless the view runs out first.
   */
  lemma WindowSpansViewport(n: nat, top: nat, h: nat)
    ensures WindowAt(n, top, h).start * ITEM_HEIGHT <= top
    ensures WindowAt(n, top, h).end == n || top + h <= WindowAt(n, top, h).end * ITEM_HEIGHT
  {
    var w := WindowAt(n, top, h);
    var q := top / ITEM_HEIGHT;
    var c := CeilDiv(h, ITEM_HEIGHT);
    assert q * ITEM_HEIGHT <= top < q * ITEM_HEIGHT + ITEM_HEIGHT;
    assert w.start <= q;
    assert w.start * ITEM_HEIGHT <= q * ITEM_HEIGHT;
    if w.end != n {
      assert w.end == w.start + c + 2 * BUFFER;
      assert w.start + BUFFER >= q;
      assert w.end >= q + BUFFER + c;
      assert w.end * ITEM_HEIGHT >= q * ITEM_HEIGHT + BUFFER * ITEM_HEIGHT + c * ITEM_HEIGHT;
    }
  }

  /** Over a non-empty view and a scroll offset the browser allows, at least one row is rendered. */
  lemma WindowNonEmpty(n: nat, top: nat, h: nat)
    requires n > 0 && top <= MaxScroll(n, h)
    ensures WindowAt(n, top, h).start < WindowAt(n, top, h).end
  {
    var q := top / ITEM_HEIGHT;
    assert q * ITEM_HEIGHT <= top <= InnerHeight(n);
    assert q <= n;
  }

  /** One rendered list item: its absolute `data-index`, `data-font`, pixel `top` and highlight. */
  datatype Row = Row(index: nat, family: string, top: nat, selected: bool)

  /** The items `renderVisibleItems` writes for window `w`; the item at `selected` is highlighted. */
  function RenderRows(view: seq<FontDescriptor>, w: ViewportWindow, selected: int): seq<Row>
    requires w.end <= |view|
  {
    if w.start <= w.end then
      seq(w.end - w.start, i requires 0 <= i < w.end - w.start =>
        Row(w.start + i, view[w.start + i].family, (w.start + i) * ITEM_HEIGHT, w.start + i == selected))
    else []
  }

  /** At most one item carries the highlight. */
  predicate AtMostOneSelected(rows: seq<Row>)
  {
    forall i, j :: 0 <= i < |rows| && 0 <= j < |rows| && rows[i].selected && rows[j].selected ==> i == j
  }

  /**
   * The rendered items are the window's slice of the view in order, each placed
   * at `index * 52` inside the inner container, with exactly the item at
   * `selected` highlighted when it lies in the window and none otherwise.
   */
  lemma RenderedRowsShape(view: seq<FontDescriptor>, w: ViewportWindow, selected: int)
    requires w.end <= |view|
    ensures var rows := RenderRows(view, w, selected);
      && |rows| == (if w.start <= w.end then w.end - w.start else 0)
      && (forall i :: 0 <= i < |rows| ==>
            rows[i].index == w.start + i && rows[i].family == view[rows[i].index].family
            && rows[i].top == rows[i].index * ITEM_HEIGHT
            && rows[i].top + ITEM_HEIGHT <= InnerHeight(|view|))
      && AtMostOneSelected(rows)
      && ((exists i :: 0 <= i < |rows| && rows[i].selected) <==> w.start <= selected < w.end)
  {
    var rows := RenderRows(view, w, selected);
    forall i | 0 <= i < |rows|
      ensures rows[i].top + ITEM_HEIGHT <= InnerHeight(|view|)
    {
      assert rows[i].index + 1 <= |view|;
      assert (rows[i].index + 1) * ITEM_HEIGHT <= |view| * ITEM_HEIGHT;
    }
    if w.start <= selected < w.end {
      assert rows[selected - w.start].selected;
    }
  }

  /** `rows` and `r` list the same items, with possibly different highlights. */
  predicate SameItems(r: seq<Row>, rows: seq<Row>)
  {
    |r| == |rows| && forall i :: 0 <= i < |rows| ==> r[i].(selected := false) == rows[i].(selected := false)
  }

  /** Exactly the items whose `data-index` is `k` carry the highlight, and at most one does. */
  predicate HighlightOnly(rows: seq<Row>, k: int)
  {
    AtMostOneSelected(rows) && forall i :: 0 <= i < |rows| ==> (rows[i].selected <==> rows[i].index == k)
  }

  /** A full render highlights exactly the item of the selection. */
  lemma RenderedHighlight(view: seq<FontDescriptor>, w: ViewportWindow, selected: int)
    requires w.end <= |view|
    ensures HighlightOnly(RenderRows(view, w, selected), selected)
  {
    RenderedRowsShape(view, w, selected);
  }

  /** `inner.querySelector('.gft-item.selected')?.classList.remove('selected')`. */
  function ClearFirstSelected(rows: seq<Row>): (r: seq<Row>)
    ensures SameItems(r, rows)
  {
    var j := IndexWhere(rows, (r: Row) => r.selected);
    if j < 0 then rows else rows[j := rows[j].(selected := false)]
  }

  /** `inner.querySelector('[data-index="k"]')?.classList.add('selected')`. */
  function MarkFirstWithIndex(rows: seq<Row>, k: int): (r: seq<Row>)
    ensures SameItems(r, rows)
  {
    var j := IndexWhere(rows, (r: Row) => r.index == k);
    if j < 0 then rows else rows[j := rows[j].(selected := true)]
  }

  /**
   * `updateSelection`'s patch of the rendered items: the old highlight off, the
   * new one on; the items themselves, their order and positions are untouched.
   */
  function MoveHighlight(rows: seq<Row>, k: int): (r: seq<Row>)
    ensures SameItems(r, rows)
  {
    MarkFirstWithIndex(ClearFirstSelected(rows), k)
  }

  /**
   * Moving the highlight in place gives exactly the items a full re-render with
   * the new selection would give: no flicker and no second highlighted item.
   */
  lemma {:induction false} MoveHighlightRerenders(view: seq<FontDescriptor>, w: ViewportWindow, previous: int, k: int)
    requires w.end <= |view|
    ensures MoveHighlight(RenderRows(view, w, previous), k) == RenderRows(view, w, k)
  {
    var rows := RenderRows(view, w, previous);
    var cleared := ClearFirstSelected(rows);
    var target := RenderRows(view, w, k);
    RenderedRowsShape(view, w, previous);
    assert |cleared| == |rows|;
    forall i | 0 <= i < |cleared|
      ensures cleared[i] == rows[i].(selected := false)
    {
      if rows[i].selected {
        var j := IndexWhere(rows, (r: Row) => r.selected);
        assert j == i;
      }
    }
    var marked := MarkFirstWithIndex(cleared, k);
    var j := IndexWhere(cleared, (r: Row) => r.index == k);
    if w.start <= k < w.end {
      assert cleared[k - w.start].index == k;
      assert j == k - w.start;
    } else {
      assert j == -1;
    }
    assert |marked| == |target|;
    forall i | 0 <= i < |marked|
      ensures marked[i] == target[i]
    {
    }
  }

  /** The row `k` lies entirely inside the visible range `[top, top + h)`. */
  predicate FullyVisible(k: nat, top: nat, h: nat)
  {
    top <= k * ITEM_HEIGHT && k * ITEM_HEIGHT + ITEM_HEIGHT <= top + h
  }

  /**
   * `scrollToSelected`'s new offset for row `k`: scroll up to its top or down to
   * its bottom, else stay. Afterwards a row no taller than the container is fully
   * visible, and a row that already was causes no scroll.
   */
  function RevealTop(k: nat, top: nat, h: nat): (r: nat)
    ensures ITEM_HEIGHT <= h ==> FullyVisible(k, r, h)
    ensures FullyVisible(k, top, h) ==> r == top
  {
    if k * ITEM_HEIGHT < top then k * ITEM_HEIGHT
    else if k * ITEM_HEIGHT + ITEM_HEIGHT > top + h then k * ITEM_HEIGHT + ITEM_HEIGHT - h
    else top
  }

  /** The revealing offset of a row of the view is one the browser allows, so clamping leaves it alone. */
  lemma RevealWithinScrollRange(n: nat, k: nat, top: nat, h: nat)
    requires k < n && top <= MaxScroll(n, h)
    ensures RevealTop(k, top, h) <= MaxScroll(n, h)
  {
    assert (k + 1) * ITEM_HEIGHT <= InnerHeight(n);
  }
}
