/** The sizing rules of the component: the suggestions panel's target
    height, the autosized text box and the `MaxVisibleRowCount` validator. */
module Layout {
  import opened Wrappers

  /** The number of suggestion rows shown: the item count, capped at the
      maximum number of visible rows. */
  function VisibleRows(maxRows: int, count: int): (n: int)
    ensures n <= maxRows && n <= count
    ensures n == maxRows || n == count
  {
    if maxRows >= count then count else maxRows
  }

  /** The panel height asked for on new props: the visible rows times the
      row height. `None` stands for JavaScript's NaN, which is what an
      undefined `MaxVisibleRowCount` yields. */
  function HeightRequest(maxRows: Option<int>, count: nat, rowHeight: int): (h: Option<int>)
    ensures h.None? <==> maxRows.None?
  {
    match maxRows
    case None => None
    case Some(m) => Some(VisibleRows(m, count) * rowHeight)
  }

  /** The target `openSuggestionsPanel` animates to: the given height when it
      is a number (zero included), the configured row height otherwise. */
  function PanelTarget(height: Option<int>, suggestionRowHeight: int): int {
    height.GetOr(suggestionRowHeight)
  }

  /** With a row count and row height that are not negative, the requested
      height is one of the two candidate sizes and never exceeds either. */
  lemma HeightRequestBounds(m: int, count: nat, rowHeight: int)
    requires m >= 0 && rowHeight >= 0
    ensures var h := HeightRequest(Some(m), count, rowHeight).value;
            0 <= h <= m * rowHeight && h <= count * rowHeight
            && (h == m * rowHeight || h == count * rowHeight)
  {
    var n := VisibleRows(m, count);
    assert 0 <= n;
    assert n * rowHeight <= m * rowHeight by {
      assert (m - n) * rowHeight >= 0;
    }
    assert n * rowHeight <= count * rowHeight by {
      assert (count - n) * rowHeight >= 0;
    }
  }

  /** Three visible rows of height 20: five items ask for 60, two for 40. */
  lemma ExamplePanelHeights()
    ensures HeightRequest(Some(3), 5, 20) == Some(60)
    ensures HeightRequest(Some(3), 2, 20) == Some(40)
  {
  }

  /** The text box height for a reported content height: the minimum while
      the content fits in it, else the content height plus 10. */
  function AutosizeHeight(minHeight: int, contentHeight: int): (h: int)
    ensures h >= minHeight && h >= contentHeight
    ensures h == minHeight <==> minHeight >= contentHeight
    ensures h != minHeight ==> h == contentHeight + 10
  {
    if minHeight >= contentHeight then minHeight else contentHeight + 10
  }

  /** The height the text box is rendered with: the computed height, capped
      at the maximum. */
  function RenderedHeight(maxHeight: int, height: int): (r: int)
    ensures r <= maxHeight && r <= height
    ensures r == maxHeight || r == height
  {
    if maxHeight <= height then maxHeight else height
  }

  /** With consistent bounds, the rendered height stays between the minimum
      and the maximum, whatever content height is reported. */
  lemma RenderedHeightWithinBounds(minHeight: int, maxHeight: int, contentHeight: int)
    requires minHeight <= maxHeight
    ensures minHeight <= RenderedHeight(maxHeight, AutosizeHeight(minHeight, contentHeight)) <= maxHeight
  {
  }

  /** Minimum 30: content 50 gives 60, content 10 gives 30; with the default
      maximum 80, content 100 is rendered at 80. */
  lemma ExampleAutosize()
    ensures AutosizeHeight(30, 50) == 60
    ensures AutosizeHeight(30, 10) == 30
    ensures RenderedHeight(80, AutosizeHeight(30, 100)) == 80
  {
  }

  /** The `MaxVisibleRowCount` prop validator reports an error: the list is
      vertical and the count is missing or zero. */
  predicate MaxVisibleRowCountError(horizontal: bool, maxRows: Option<int>) {
    !horizontal && (maxRows.None? || maxRows == Some(0))
  }

  /** For a vertical list with items and a non-zero row height, the
      validator reports exactly the counts whose requested height is
      degenerate: NaN (no count) or zero (a panel that never shows). */
  lemma ValidatorFlagsDegenerateHeight(maxRows: Option<int>, count: nat, rowHeight: int)
    requires count > 0 && rowHeight != 0
    ensures var h := HeightRequest(maxRows, count, rowHeight);
            MaxVisibleRowCountError(false, maxRows) <==> h.None? || h == Some(0)
  {
    if maxRows.Some? && maxRows.value != 0 {
      var n := VisibleRows(maxRows.value, count);
      assert n != 0;
      assert n * rowHeight != 0;
    }
  }
}
