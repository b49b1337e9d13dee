/** The hit test of `src/hooks/useColumnDragReorder.ts`: where a dragged column goes. Lengths are reals. A
    column keeps its width when it moves; `widths` knows exactly the columns whose headers are shown. */
module ColumnDrag {
  import opened Lists
  import opened Options

  /** `start` is where the first reorderable column begins, its left edge or, from right to left, its right. */
  datatype Layout = Layout(rtl: bool, start: real, gap: real, widths: map<string, real>)

  datatype Rect = Rect(left: real, width: real)

  predicate LayoutOk(l: Layout) {
    l.gap >= 0.0 && forall k | k in l.widths :: l.widths[k] >= 0.0
  }

  // --- Measuring ------------------------------------------------------------------------------------------

  /** What a column takes from the row, the gap behind it included. */
  function Span(l: Layout, key: string): real {
    if key in l.widths then l.widths[key] + l.gap else 0.0
  }

  /** What the columns before index `i` take. */
  function Lead(l: Layout, order: seq<string>, i: nat): real
    requires i <= |order|
  {
    if i == 0 then 0.0 else Lead(l, order, i - 1) + Span(l, order[i - 1])
  }

  function RectAt(l: Layout, order: seq<string>, i: nat): Rect
    requires i < |order| && order[i] in l.widths
  {
    var width := l.widths[order[i]];
    Rect(if l.rtl then l.start - Lead(l, order, i) - width else l.start + Lead(l, order, i), width)
  }

  /** `measureOrderRects`: the columns that are shown, one after the other. */
  method MeasureOrderRects(l: Layout, order: seq<string>) returns (rects: map<string, Rect>)
    requires Distinct(order)
    ensures forall k :: k in rects <==> k in order && k in l.widths
    ensures forall i | 0 <= i < |order| && order[i] in l.widths :: rects[order[i]] == RectAt(l, order, i)
  {
    rects := map[];
    var cursor, n := l.start, 0;
    while n < |order|
      invariant 0 <= n <= |order|
      invariant cursor == if l.rtl then l.start - Lead(l, order, n) else l.start + Lead(l, order, n)
      invariant forall k :: k in rects <==> k in order[..n] && k in l.widths
      invariant forall i | 0 <= i < n && order[i] in l.widths :: rects[order[i]] == RectAt(l, order, i)
    {
      var key := order[n];
      assert order[..n + 1] == order[..n] + [key];
      if key in l.widths {
        var width := l.widths[key];
        if l.rtl {
          rects := rects[key := Rect(cursor - width, width)];
          cursor := cursor - (width + l.gap);
        } else {
          rects := rects[key := Rect(cursor, width)];
          cursor := cursor + (width + l.gap);
        }
      }
      n := n + 1;
    }
    assert order[..n] == order;
  }

  // --- The hit test ---------------------------------------------------------------------------------------

  function Hysteresis(width: real): real {
    if width / 4.0 < 8.0 then width / 4.0 else 8.0
  }

  /** The pointer has passed the midpoint of the column at `i` by more than the hysteresis. */
  predicate Crossed(l: Layout, order: seq<string>, from: nat, i: nat, x: real)
    requires from < |order| && i < |order|
  {
    && i != from && order[i] in l.widths && l.widths[order[i]] > 0.0
    && var rect := RectAt(l, order, i);
       var midpoint, hysteresis := rect.left + rect.width / 2.0, Hysteresis(rect.width);
       if (i > from) != l.rtl then x > midpoint + hysteresis else x < midpoint - hysteresis
  }

  function Distance(i: nat, j: nat): nat { if i < j then j - i else i - j }

  /** The loop from index `i` on, with `to` the best index so far. */
  function Farthest(l: Layout, order: seq<string>, from: nat, x: real, i: nat, to: nat): (r: nat)
    requires from < |order| && i <= |order| && to < |order|
    ensures r < |order|
    decreases |order| - i
  {
    if i == |order| then to
    else if Crossed(l, order, from, i, x) && Distance(i, from) > Distance(to, from)
      then Farthest(l, order, from, x, i + 1, i)
    else Farthest(l, order, from, x, i + 1, to)
  }

  function Target(l: Layout, order: seq<string>, from: nat, x: real): (to: nat)
    requires from < |order|
    ensures to < |order|
  {
    Farthest(l, order, from, x, 0, from)
  }

  /** The two splices: the column at `from` is taken out and put in at `to`. */
  function Move(order: seq<string>, from: nat, to: nat): (next: seq<string>)
    requires from < |order| && to < |order|
    ensures |next| == |order|
  {
    var rest := order[..from] + order[from + 1..];
    rest[..to] + [order[from]] + rest[to..]
  }

  /** `evaluate` from the hit test on: the next order, if the dragged column is to move. */
  method Evaluate(l: Layout, cols: seq<string>, from: nat, pointerX: real) returns (next: Option<seq<string>>)
    requires Distinct(cols) && from < |cols|
    ensures var to := Target(l, cols, from, pointerX);
      next == if to == from then None else Some(Move(cols, from, to))
  {
    var rects := MeasureOrderRects(l, cols);
    var toIdx, index := from, 0;
    while index < |cols|
      invariant 0 <= index <= |cols| && 0 <= toIdx < |cols|
      invariant Farthest(l, cols, from, pointerX, index, toIdx) == Target(l, cols, from, pointerX)
    {
      var key := cols[index];
      if index != from && key in rects && rects[key].width > 0.0 {
        var rect := rects[key];
        var midpoint := rect.left + rect.width / 2.0;
        var hysteresis := Hysteresis(rect.width);
        var movingRight := (index > from) != l.rtl;
        var crossed := if movingRight then pointerX > midpoint + hysteresis else pointerX < midpoint - hysteresis;
        if crossed && Distance(index, from) > Distance(toIdx, from) {
          toIdx := index;
        }
      }
      index := index + 1;
    }
    if toIdx == from {
      return None;
    }
    var rest := cols[..from] + cols[from + 1..];
    next := Some(rest[..toIdx] + [cols[from]] + rest[toIdx..]);
  }
}
