/**
 * Window geometry and listview helpers (DiskTools/WindowUtils.cpp): rectangles moved and
 * resized by offsets, the client-space rectangles of a control and of the size grip, the
 * width of an image-list icon, the report-mode style test, and the column widths fitted
 * to the longest text of each listview column.
 */
module WindowUtils {
  import opened Wrappers
  import opened Packed

  datatype Rect = Rect(left: int, top: int, right: int, bottom: int)
  datatype Point = Point(x: int, y: int)
  datatype Size = Size(cx: int, cy: int)

  function Width(r: Rect): int { r.right - r.left }
  function Height(r: Rect): int { r.bottom - r.top }

  // ---------------------------------------------------------------------------
  // Rectangles.

  /**
   * `get_repositioned_rect_by_offset`: the origin moved by `positionOffset`; the `right`
   * and `bottom` fields carry the new width and height, not coordinates.
   */
  function GetRepositionedRectByOffset(original: Rect, positionOffset: Point, sizeOffset: Size): (r: Rect)
    ensures r.left - original.left == positionOffset.x && r.top - original.top == positionOffset.y
    ensures r.right - sizeOffset.cx == Width(original) && r.bottom - sizeOffset.cy == Height(original)
  {
    Rect(original.left + positionOffset.x, original.top + positionOffset.y,
         original.right - original.left + sizeOffset.cx, original.bottom - original.top + sizeOffset.cy)
  }

  /** Where `MoveWindow(x, y, width, height)` puts a window. */
  function MoveWindow(x: int, y: int, width: int, height: int): Rect
  {
    Rect(x, y, x + width, y + height)
  }

  /**
   * `reposition_control_by_offset`: the control keeps its place relative to the moved
   * origin and grows by exactly the size offset.
   */
  lemma RepositionedControl(original: Rect, positionOffset: Point, sizeOffset: Size)
    ensures var r := GetRepositionedRectByOffset(original, positionOffset, sizeOffset);
      var placed := MoveWindow(r.left, r.top, r.right, r.bottom);
      && placed.left == original.left + positionOffset.x && placed.top == original.top + positionOffset.y
      && Width(placed) == Width(original) + sizeOffset.cx && Height(placed) == Height(original) + sizeOffset.cy
  {
  }

  /** Zero offsets put the control back where it was. */
  lemma RepositionByNothing(original: Rect)
    ensures var r := GetRepositionedRectByOffset(original, Point(0, 0), Size(0, 0));
      MoveWindow(r.left, r.top, r.right, r.bottom) == original
  {
  }

  /**
   * `get_clientspace_control_rect`: the control's screen rectangle with its top-left
   * corner mapped by `screenToClient` and its size kept.
   */
  function GetClientspaceControlRect(screenspaceRect: Rect, screenToClient: Point -> Point): (r: Rect)
    ensures Point(r.left, r.top) == screenToClient(Point(screenspaceRect.left, screenspaceRect.top))
    ensures Width(r) == Width(screenspaceRect) && Height(r) == Height(screenspaceRect)
  {
    var point := screenToClient(Point(screenspaceRect.left, screenspaceRect.top));
    Rect(point.x, point.y,
         point.x + screenspaceRect.right - screenspaceRect.left,
         point.y + screenspaceRect.bottom - screenspaceRect.top)
  }

  /**
   * `get_clientspace_grip_rect`: the bottom-right corner of the client area, as wide as
   * the SM_CXHSCROLL metric and as tall as the SM_CYVSCROLL metric.
   */
  function GetClientspaceGripRect(clientRect: Rect, cxHScroll: int, cyVScroll: int): (r: Rect)
    ensures r.right == clientRect.right && r.bottom == clientRect.bottom
    ensures Width(r) == cxHScroll && Height(r) == cyVScroll
  {
    clientRect.(left := clientRect.right - cxHScroll, top := clientRect.bottom - cyVScroll)
  }

  // ---------------------------------------------------------------------------
  // Image list and style.

  /** An image list, by the icon rectangles it answers for; a missing index fails. */
  datatype ImageList = ImageList(images: seq<Rect>)

  /**
   * `get_imagelist_width_by_index`: the icon's width as an unsigned int, or 0 when there
   * is no image list or the index is not in it.
   */
  function GetImagelistWidthByIndex(imageList: Option<ImageList>, imageIndex: nat): (width: uint32)
    ensures imageList.None? ==> width == 0
    ensures imageList.Some? && imageIndex >= |imageList.value.images| ==> width == 0
    ensures imageList.Some? && imageIndex < |imageList.value.images|
            && 0 <= Width(imageList.value.images[imageIndex]) < TwoTo32
            ==> width == Width(imageList.value.images[imageIndex])
  {
    if imageList.Some? && imageIndex < |imageList.value.images| then
      Width(imageList.value.images[imageIndex]) % TwoTo32
    else 0
  }

  /** The listview view-type bits of a window style, and the report view (commctrl.h). */
  const ListViewTypeMask: bv32 := 0x0003
  const ListViewReport: bv32 := 0x0001

  /** `is_listview_in_report_mode`. */
  predicate IsListviewInReportMode(style: bv32)
  {
    style & ListViewTypeMask == ListViewReport
  }

  /** Report mode is the two low bits reading 01, whatever the other style bits are. */
  lemma ReportModeBits(style: bv32)
    ensures IsListviewInReportMode(style) <==> (style & 1 == 1 && style & 2 == 0)
    ensures IsListviewInReportMode(style) <==> IsListviewInReportMode(style & 3)
  {
  }

  // ---------------------------------------------------------------------------
  // Column widths.

  /**
   * A report-mode listview, by the pixel widths `ListView_GetStringWidth` reports for its
   * header texts and for each row's texts, one per column.
   */
  datatype ListView = ListView(headerWidths: seq<int>, rowWidths: seq<seq<int>>, imageWidth: uint32)

  predicate WellFormed(listview: ListView)
  {
    forall row :: 0 <= row < |listview.rowWidths| ==> |listview.rowWidths[row]| == |listview.headerWidths|
  }

  /** The padding added on both sides of a column's text. */
  const ColumnPadding: int := 12

  /** The width a row's text needs in `column`; the first column also holds the icon. */
  function CellWidth(listview: ListView, row: nat, column: nat): int
    requires WellFormed(listview) && row < |listview.rowWidths| && column < |listview.headerWidths|
  {
    listview.rowWidths[row][column] + (if column == 0 then listview.imageWidth else 0)
  }

  /** The widest of the header and the first `rows` rows of `column`. */
  function WidestText(listview: ListView, column: nat, rows: nat): int
    requires WellFormed(listview) && column < |listview.headerWidths| && rows <= |listview.rowWidths|
  {
    if rows == 0 then listview.headerWidths[column]
    else
      var widest := WidestText(listview, column, rows - 1);
      var width := CellWidth(listview, rows - 1, column);
      if width > widest then width else widest
  }

  /** The width `adjust_listview_column_widths` gives `column`. */
  function ColumnWidth(listview: ListView, column: nat): int
    requires WellFormed(listview) && column < |listview.headerWidths|
  {
    WidestText(listview, column, |listview.rowWidths|) + ColumnPadding
  }

  /**
   * The widest text is at least the header and every row, and is one of them: the
   * column is exactly wide enough, plus padding, for its longest entry.
   */
  lemma {:induction false} WidestTextIsMaximum(listview: ListView, column: nat, rows: nat)
    requires WellFormed(listview) && column < |listview.headerWidths| && rows <= |listview.rowWidths|
    ensures WidestText(listview, column, rows) >= listview.headerWidths[column]
    ensures forall row :: 0 <= row < rows ==> WidestText(listview, column, rows) >= CellWidth(listview, row, column)
    ensures WidestText(listview, column, rows) == listview.headerWidths[column]
            || exists row :: 0 <= row < rows && WidestText(listview, column, rows) == CellWidth(listview, row, column)
  {
    if rows > 0 {
      WidestTextIsMaximum(listview, column, rows - 1);
    }
  }

  /** Each column is 12 pixels wider than its widest entry, and not narrower than any. */
  lemma ColumnWidthFitsEveryEntry(listview: ListView, column: nat)
    requires WellFormed(listview) && column < |listview.headerWidths|
    ensures ColumnWidth(listview, column) >= listview.headerWidths[column] + ColumnPadding
    ensures forall row :: 0 <= row < |listview.rowWidths| ==>
      ColumnWidth(listview, column) >= CellWidth(listview, row, column) + ColumnPadding
  {
    WidestTextIsMaximum(listview, column, |listview.rowWidths|);
  }

  /** Whether `ListView_SetColumnWidth` succeeds for a column and width. */
  type ColumnSetter = (nat, int) -> bool

  /**
   * `adjust_listview_column_widths`: column by column, the widest of the header and of
   * every row (the icon counted in column 0), plus padding, is set as the width; the
   * first column whose width is refused ends the loop with false.
   */
  method AdjustListviewColumnWidths(listview: ListView, setColumnWidth: ColumnSetter)
    returns (success: bool, widthsSet: seq<int>)
    requires WellFormed(listview)
    ensures |widthsSet| <= |listview.headerWidths|
    ensures forall column :: 0 <= column < |widthsSet| ==> widthsSet[column] == ColumnWidth(listview, column)
    ensures success <==> |widthsSet| == |listview.headerWidths|
                         && forall column :: 0 <= column < |widthsSet| ==> setColumnWidth(column, widthsSet[column])
    ensures !success ==> |widthsSet| > 0 && !setColumnWidth(|widthsSet| - 1, widthsSet[|widthsSet| - 1])
    ensures forall column :: 0 <= column < |widthsSet| - 1 ==> setColumnWidth(column, widthsSet[column])
  {
    success := true;
    widthsSet := [];
    var columnCount := |listview.headerWidths|;
    var rowCount := |listview.rowWidths|;
    var column := 0;
    while column < columnCount
      invariant column <= columnCount && |widthsSet| == column
      invariant forall c :: 0 <= c < column ==> widthsSet[c] == ColumnWidth(listview, c)
      invariant forall c :: 0 <= c < column ==> setColumnWidth(c, widthsSet[c])
      invariant success
    {
      var minWidth := listview.headerWidths[column];
      var row := 0;
      while row < rowCount
        invariant row <= rowCount
        invariant minWidth == WidestText(listview, column, row)
      {
        var columnWidth := listview.rowWidths[row][column];
        if 0 == column {
          columnWidth := columnWidth + listview.imageWidth;
        }
        assert columnWidth == CellWidth(listview, row, column);
        if columnWidth > minWidth {
          minWidth := columnWidth;
        }
        row := row + 1;
      }
      minWidth := minWidth + ColumnPadding;
      assert minWidth == ColumnWidth(listview, column);
      widthsSet := widthsSet + [minWidth];
      if !setColumnWidth(column, minWidth) {
        success := false;
        assert |widthsSet| == column + 1 && widthsSet[column] == minWidth;
        break;
      }
      column := column + 1;
    }
  }
}
