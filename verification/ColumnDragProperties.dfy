/** The hit test is stable, and jumping over several columns is the same as swapping with one after another. */
module ColumnDragProperties {
  import opened ColumnDrag

  // --- Reading direction ----------------------------------------------------------------------------------

  /** How far the pointer is into the row, in reading direction. */
  function Along(l: Layout, x: real): real {
    if l.rtl then l.start - x else x - l.start
  }

  /** The column can be crossed. */
  predicate Solid(l: Layout, key: string) {
    key in l.widths && l.widths[key] > 0.0
  }

  /** In reading direction, where the pointer must be before to have crossed column `i` backwards. */
  function Near(l: Layout, order: seq<string>, i: nat): real
    requires i < |order| && order[i] in l.widths
  {
    Lead(l, order, i) + l.widths[order[i]] / 2.0 - Hysteresis(l.widths[order[i]])
  }

  /** In reading direction, where the pointer must be behind to have crossed column `i` forwards. */
  function Far(l: Layout, order: seq<string>, i: nat): real
    requires i < |order| && order[i] in l.widths
  {
    Lead(l, order, i) + l.widths[order[i]] / 2.0 + Hysteresis(l.widths[order[i]])
  }

  /** Both directions of writing are one in reading direction. */
  lemma CrossedAlong(l: Layout, order: seq<string>, from: nat, i: nat, x: real)
    requires from < |order| && i < |order|
    ensures Crossed(l, order, from, i, x) <==>
      (i != from && Solid(l, order[i]) &&
         if i > from then Along(l, x) > Far(l, order, i) else Along(l, x) < Near(l, order, i))
  {
  }

  /** By how many pixels the pointer must be past the midpoint of a column: 8, or a quarter of a narrow column. */
  function Margin(width: real): real {
    if width >= 32.0 then 8.0 else width / 4.0
  }

  /** On the screen: a column that is shown is crossed when the pointer is past its midpoint by more than the margin,
      on the side away from the dragged column. */
  lemma CrossedOnScreen(l: Layout, order: seq<string>, from: nat, i: nat, x: real)
    requires from < |order| && i < |order| && i != from && order[i] in l.widths
    ensures var rect := RectAt(l, order, i);
      var past := x - (rect.left + rect.width / 2.0);
      rect.width == l.widths[order[i]]
      && (Crossed(l, order, from, i, x) <==>
          rect.width > 0.0
          && if (i > from && !l.rtl) || (i < from && l.rtl) then past > Margin(rect.width)
             else -past > Margin(rect.width))
  {
  }

  /** No column from `i` up to `j` is shown. */
  predicate NoneShown(l: Layout, order: seq<string>, i: nat, j: nat) {
    i <= j <= |order| && forall k | i <= k < j :: order[k] !in l.widths
  }

  lemma {:induction false} NothingLeads(l: Layout, order: seq<string>, i: nat, j: nat)
    requires NoneShown(l, order, i, j)
    ensures Lead(l, order, j) == Lead(l, order, i)
    decreases j
  {
    if i < j {
      NothingLeads(l, order, i, j - 1);
    }
  }

  /** The first column that is shown stands at the start of the row, from right to left with its right edge. */
  lemma FirstRect(l: Layout, order: seq<string>, i: nat)
    requires i < |order| && order[i] in l.widths && NoneShown(l, order, 0, i)
    ensures var rect := RectAt(l, order, i); l.start == if l.rtl then rect.left + rect.width else rect.left
  {
    NothingLeads(l, order, 0, i);
  }

  /** Each further one stands behind the one before, with the gap between them. */
  lemma NextRect(l: Layout, order: seq<string>, i: nat, j: nat)
    requires i < j < |order| && order[i] in l.widths && order[j] in l.widths && NoneShown(l, order, i + 1, j)
    ensures var a, b := RectAt(l, order, i), RectAt(l, order, j);
      if l.rtl then b.left + b.width + l.gap == a.left else a.left + a.width + l.gap == b.left
  {
    NothingLeads(l, order, i + 1, j);
  }

  // --- Positions ------------------------------------------------------------------------------------------

  lemma {:induction false} LeadGrows(l: Layout, order: seq<string>, i: nat, j: nat)
    requires LayoutOk(l) && i <= j <= |order|
    ensures Lead(l, order, i) <= Lead(l, order, j)
    decreases j
  {
    if i < j {
      LeadGrows(l, order, i, j - 1);
    }
  }

  /** The columns' dead zones come one after the other. */
  lemma ZonesInOrder(l: Layout, order: seq<string>, i: nat, j: nat)
    requires LayoutOk(l) && i < j < |order| && Solid(l, order[i]) && Solid(l, order[j])
    ensures Near(l, order, i) < Far(l, order, i) < Near(l, order, j) < Far(l, order, j)
  {
    LeadGrows(l, order, i + 1, j);
  }

  lemma {:induction false} LeadOfPrefix(l: Layout, a: seq<string>, b: seq<string>, i: nat)
    requires i <= |a| && i <= |b| && a[..i] == b[..i]
    ensures Lead(l, a, i) == Lead(l, b, i)
    decreases i
  {
    if i > 0 {
      assert a[..i - 1] == a[..i][..i - 1] && b[..i - 1] == b[..i][..i - 1];
      assert a[i - 1] == a[..i][i - 1] && b[i - 1] == b[..i][i - 1];
      LeadOfPrefix(l, a, b, i - 1);
    }
  }

  /** Where the columns are after one of them moved forwards. */
  lemma MoveForwards(order: seq<string>, from: nat, to: nat)
    requires from <= to < |order|
    ensures var next := Move(order, from, to);
      && next[to] == order[from]
      && (forall j | 0 <= j < |order| && (j < from || j > to) :: next[j] == order[j])
      && (forall j | from <= j < to :: next[j] == order[j + 1])
  {
  }

  lemma MoveBackwards(order: seq<string>, from: nat, to: nat)
    requires to <= from < |order|
    ensures var next := Move(order, from, to);
      && next[to] == order[from]
      && (forall j | 0 <= j < |order| && (j < to || j > from) :: next[j] == order[j])
      && (forall j | to < j <= from :: next[j] == order[j - 1])
  {
  }

  lemma {:induction false} LeadForwards(l: Layout, order: seq<string>, from: nat, to: nat, j: nat)
    requires from <= to < |order| && j <= |order|
    ensures Lead(l, Move(order, from, to), j) ==
      if j <= from || j > to then Lead(l, order, j) else Lead(l, order, j + 1) - Span(l, order[from])
    decreases j
  {
    MoveForwards(order, from, to);
    if j > 0 {
      LeadForwards(l, order, from, to, j - 1);
    }
  }

  lemma {:induction false} LeadBackwards(l: Layout, order: seq<string>, from: nat, to: nat, j: nat)
    requires to <= from < |order| && j <= |order|
    ensures Lead(l, Move(order, from, to), j) ==
      if j <= to || j > from then Lead(l, order, j) else Lead(l, order, j - 1) + Span(l, order[from])
    decreases j
  {
    MoveBackwards(order, from, to);
    if j > 0 {
      LeadBackwards(l, order, from, to, j - 1);
    }
  }

  // --- The target -----------------------------------------------------------------------------------------

  lemma {:induction false} FarthestIs(l: Layout, order: seq<string>, from: nat, x: real, i: nat, to: nat)
    requires from < |order| && i <= |order| && to < |order|
    requires to == from || Crossed(l, order, from, to, x)
    requires forall j | 0 <= j < i && Crossed(l, order, from, j, x) :: Distance(j, from) <= Distance(to, from)
    ensures var r := Farthest(l, order, from, x, i, to);
      && (r == from || Crossed(l, order, from, r, x))
      && (forall j | 0 <= j < |order| && Crossed(l, order, from, j, x) :: Distance(j, from) <= Distance(r, from))
    decreases |order| - i
  {
    if i < |order| {
      if Crossed(l, order, from, i, x) && Distance(i, from) > Distance(to, from) {
        FarthestIs(l, order, from, x, i + 1, i);
      } else {
        FarthestIs(l, order, from, x, i + 1, to);
      }
    }
  }

  /** The target is the column itself when nothing is crossed, or a crossed column that no crossed column is
      farther away than. */
  lemma TargetIs(l: Layout, order: seq<string>, from: nat, x: real)
    requires from < |order|
    ensures var to := Target(l, order, from, x);
      && (to == from || Crossed(l, order, from, to, x))
      && (forall j | 0 <= j < |order| && Crossed(l, order, from, j, x) :: Distance(j, from) <= Distance(to, from))
  {
    FarthestIs(l, order, from, x, 0, from);
  }

  lemma {:induction false} NothingFarther(l: Layout, order: seq<string>, from: nat, x: real, i: nat, to: nat)
    requires from < |order| && i <= |order| && to < |order|
    requires forall j | i <= j < |order| && Crossed(l, order, from, j, x) :: Distance(j, from) <= Distance(to, from)
    ensures Farthest(l, order, from, x, i, to) == to
    decreases |order| - i
  {
    if i < |order| {
      NothingFarther(l, order, from, x, i + 1, to);
    }
  }

  /** Crossed columns lie on one side. */
  lemma OneSide(l: Layout, order: seq<string>, from: nat, i: nat, j: nat, x: real)
    requires LayoutOk(l) && i < from < j < |order|
    ensures !(Crossed(l, order, from, i, x) && Crossed(l, order, from, j, x))
  {
    CrossedAlong(l, order, from, i, x);
    CrossedAlong(l, order, from, j, x);
    if Solid(l, order[i]) && Solid(l, order[j]) {
      ZonesInOrder(l, order, i, j);
    }
  }

  // --- Stability ------------------------------------------------------------------------------------------

  /** After a move forwards nothing is crossed any more. */
  lemma NothingCrossedForwards(l: Layout, order: seq<string>, from: nat, to: nat, x: real, j: nat)
    requires LayoutOk(l) && from < to < |order| && j < |order| && to == Target(l, order, from, x)
    ensures !Crossed(l, Move(order, from, to), to, j, x)
  {
    var next := Move(order, from, to);
    TargetIs(l, order, from, x);
    CrossedAlong(l, order, from, to, x);
    CrossedAlong(l, next, to, j, x);
    MoveForwards(order, from, to);
    LeadForwards(l, order, from, to, j);
    if j > to {
      CrossedAlong(l, order, from, j, x);
    } else if j < to && Solid(l, next[j]) {
      var was := if j < from then j else j + 1;
      assert next[j] == order[was] && Near(l, next, j) <= Near(l, order, was);
      if was < to {
        ZonesInOrder(l, order, was, to);
      }
    }
  }

  lemma NothingCrossedBackwards(l: Layout, order: seq<string>, from: nat, to: nat, x: real, j: nat)
    requires LayoutOk(l) && to < from < |order| && j < |order| && to == Target(l, order, from, x)
    ensures !Crossed(l, Move(order, from, to), to, j, x)
  {
    var next := Move(order, from, to);
    TargetIs(l, order, from, x);
    CrossedAlong(l, order, from, to, x);
    CrossedAlong(l, next, to, j, x);
    MoveBackwards(order, from, to);
    LeadBackwards(l, order, from, to, j);
    if j < to {
      CrossedAlong(l, order, from, j, x);
    } else if j > to && Solid(l, next[j]) {
      var was := if j > from then j else j - 1;
      assert next[j] == order[was] && Far(l, next, j) >= Far(l, order, was);
      if was > to {
        ZonesInOrder(l, order, to, was);
      }
    }
  }

  /** After a reorder at `x`, evaluating again at `x` changes nothing, in both writing directions, also with
      hidden columns and columns of no width. */
  lemma ReorderIsStable(l: Layout, order: seq<string>, from: nat, x: real)
    requires LayoutOk(l) && from < |order|
    ensures var to := Target(l, order, from, x); Target(l, Move(order, from, to), to, x) == to
  {
    var to := Target(l, order, from, x);
    var next := Move(order, from, to);
    if to == from {
      MoveForwards(order, from, from);
      assert next == order;
    } else {
      forall j | 0 <= j < |order| ensures !Crossed(l, next, to, j, x) {
        if to > from {
          NothingCrossedForwards(l, order, from, to, x, j);
        } else {
          NothingCrossedBackwards(l, order, from, to, x, j);
        }
      }
      NothingFarther(l, next, to, x, 0, to);
    }
  }

  // --- One neighbour after the other ----------------------------------------------------------------------

  predicate AllSolid(l: Layout, order: seq<string>) {
    forall k | k in order :: Solid(l, k)
  }

  /** Swaps the dragged column with its successor as long as that one is crossed. */
  function SwapForwards(l: Layout, order: seq<string>, from: nat, x: real): (r: (seq<string>, nat))
    requires from < |order|
    decreases |order| - from
  {
    if from + 1 < |order| && Crossed(l, order, from, from + 1, x)
    then SwapForwards(l, Move(order, from, from + 1), from + 1, x)
    else (order, from)
  }

  function SwapBackwards(l: Layout, order: seq<string>, from: nat, x: real): (r: (seq<string>, nat))
    requires from < |order|
    decreases from
  {
    if from > 0 && Crossed(l, order, from, from - 1, x)
    then SwapBackwards(l, Move(order, from, from - 1), from - 1, x)
    else (order, from)
  }

  lemma MoveKeepsSolid(l: Layout, order: seq<string>, from: nat, to: nat)
    requires AllSolid(l, order) && from < |order| && to < |order|
    ensures AllSolid(l, Move(order, from, to))
  {
    var next := Move(order, from, to);
    forall k | k in next ensures k in order {
      var i :| 0 <= i < |next| && next[i] == k;
      if from <= to {
        MoveForwards(order, from, to);
      } else {
        MoveBackwards(order, from, to);
      }
    }
  }

  /** A crossed column means that all columns up to it are crossed. */
  lemma CrossedUpTo(l: Layout, order: seq<string>, from: nat, i: nat, to: nat, x: real)
    requires LayoutOk(l) && AllSolid(l, order) && from < |order| && to < |order| && Crossed(l, order, from, to, x)
    requires from < i <= to || to <= i < from
    ensures Crossed(l, order, from, i, x)
  {
    assert order[i] in order && order[to] in order;
    CrossedAlong(l, order, from, i, x);
    CrossedAlong(l, order, from, to, x);
    if i < to {
      ZonesInOrder(l, order, i, to);
    } else if to < i {
      ZonesInOrder(l, order, to, i);
    }
  }

  /** After one swap forwards the columns behind are crossed as before. */
  lemma StepForwards(l: Layout, order: seq<string>, from: nat, j: nat, x: real)
    requires from + 1 < j < |order|
    ensures Crossed(l, Move(order, from, from + 1), from + 1, j, x) <==> Crossed(l, order, from, j, x)
  {
    MoveForwards(order, from, from + 1);
    LeadForwards(l, order, from, from + 1, j);
    CrossedAlong(l, order, from, j, x);
    CrossedAlong(l, Move(order, from, from + 1), from + 1, j, x);
  }

  lemma StepBackwards(l: Layout, order: seq<string>, from: nat, j: nat, x: real)
    requires 0 < from && j + 1 < from < |order|
    ensures Crossed(l, Move(order, from, from - 1), from - 1, j, x) <==> Crossed(l, order, from, j, x)
  {
    MoveBackwards(order, from, from - 1);
    LeadBackwards(l, order, from, from - 1, j);
    CrossedAlong(l, order, from, j, x);
    CrossedAlong(l, Move(order, from, from - 1), from - 1, j, x);
  }

  lemma MovesCompose(order: seq<string>, from: nat, mid: nat, to: nat)
    requires from <= mid <= to < |order| || to <= mid <= from < |order|
    ensures Move(Move(order, from, mid), mid, to) == Move(order, from, to)
  {
    var one := Move(order, from, mid);
    if from <= to {
      MoveForwards(order, from, mid);
      MoveForwards(one, mid, to);
      MoveForwards(order, from, to);
    } else {
      MoveBackwards(order, from, mid);
      MoveBackwards(one, mid, to);
      MoveBackwards(order, from, to);
    }
  }

  /** The last crossed column, reached by swaps. */
  lemma {:induction false} SwapsReach(l: Layout, order: seq<string>, from: nat, to: nat, x: real)
    requires LayoutOk(l) && AllSolid(l, order) && from <= to < |order|
    requires (from < to ==> Crossed(l, order, from, to, x))
    requires (forall j | to < j < |order| :: !Crossed(l, order, from, j, x))
    ensures SwapForwards(l, order, from, x) == (Move(order, from, to), to)
    decreases |order| - from
  {
    if from == to {
      MoveForwards(order, from, from);
      assert Move(order, from, from) == order;
    } else {
      var next, at := Move(order, from, from + 1), from + 1;
      CrossedUpTo(l, order, from, from + 1, to, x);
      MoveKeepsSolid(l, order, from, from + 1);
      if from + 1 < to {
        StepForwards(l, order, from, to, x);
      }
      forall j | to < j < |order| ensures !Crossed(l, next, at, j, x) {
        StepForwards(l, order, from, j, x);
      }
      SwapsReach(l, next, at, to, x);
      MovesCompose(order, from, from + 1, to);
    }
  }

  lemma MoveNowhere(order: seq<string>, from: nat)
    requires from < |order|
    ensures Move(order, from, from) == order
  {
    MoveForwards(order, from, from);
  }

  lemma {:induction false} SwapsReachBack(l: Layout, order: seq<string>, from: nat, to: nat, x: real)
    requires LayoutOk(l) && AllSolid(l, order) && to <= from < |order|
    requires (to < from ==> Crossed(l, order, from, to, x))
    requires (forall j | 0 <= j < to :: !Crossed(l, order, from, j, x))
    ensures SwapBackwards(l, order, from, x) == (Move(order, from, to), to)
    decreases from - to
  {
    hide Crossed, Move, AllSolid, LayoutOk;
    if from == to {
      MoveNowhere(order, from);
    } else {
      var next, at := Move(order, from, from - 1), from - 1;
      CrossedUpTo(l, order, from, from - 1, to, x);
      MoveKeepsSolid(l, order, from, from - 1);
      if to < from - 1 {
        StepBackwards(l, order, from, to, x);
      }
      forall j | 0 <= j < to ensures !Crossed(l, next, at, j, x) {
        StepBackwards(l, order, from, j, x);
      }
      SwapsReachBack(l, next, at, to, x);
      MovesCompose(order, from, from - 1, to);
    }
  }

  /** With all columns shown and of positive width, jumping to the target gives the same order as swapping
      with one neighbour after the other until the next midpoint is not crossed. */
  lemma JumpIsSwaps(l: Layout, order: seq<string>, from: nat, x: real)
    requires LayoutOk(l) && AllSolid(l, order) && from < |order|
    ensures var to := Target(l, order, from, x);
      && (to >= from ==> SwapForwards(l, order, from, x) == (Move(order, from, to), to))
      && (to <= from ==> SwapBackwards(l, order, from, x) == (Move(order, from, to), to))
  {
    var to := Target(l, order, from, x);
    TargetIs(l, order, from, x);
    if to >= from {
      SwapsReach(l, order, from, to, x);
    }
    if to <= from {
      SwapsReachBack(l, order, from, to, x);
    }
  }

  // --- Undoing --------------------------------------------------------------------------------------------

  function Width(l: Layout, key: string): real {
    if key in l.widths then l.widths[key] else 0.0
  }

  /** After a move forwards at `x`, the pointer must go back by more than the dragged column's width, the gap,
      and twice the hysteresis of the last column it passed, before the dragged column moves back at all. */
  lemma UndoNeedsTravel(l: Layout, order: seq<string>, from: nat, x: real, y: real)
    requires LayoutOk(l) && AllSolid(l, order) && from < |order|
    requires var to := Target(l, order, from, x); from < to && Target(l, Move(order, from, to), to, y) < to
    ensures var to := Target(l, order, from, x);
      Along(l, x) - Along(l, y) > Span(l, order[from]) + 2.0 * Margin(Width(l, order[to]))
  {
    hide Target, Move, AllSolid;
    var to := Target(l, order, from, x);
    var next := Move(order, from, to);
    var back := Target(l, next, to, y);
    TargetIs(l, order, from, x);
    TargetIs(l, next, to, y);
    MoveKeepsSolid(l, order, from, to);
    CrossedUpTo(l, next, to, to - 1, back, y);
    MoveForwards(order, from, to);
    LeadForwards(l, order, from, to, to - 1);
    assert order[from] in order && order[to] in order;
    CrossedAlong(l, order, from, to, x);
    CrossedAlong(l, next, to, to - 1, y);
  }

  lemma UndoBackwardsNeedsTravel(l: Layout, order: seq<string>, from: nat, x: real, y: real)
    requires LayoutOk(l) && AllSolid(l, order) && from < |order|
    requires var to := Target(l, order, from, x); to < from && to < Target(l, Move(order, from, to), to, y)
    ensures var to := Target(l, order, from, x);
      Along(l, y) - Along(l, x) > Span(l, order[from]) + 2.0 * Margin(Width(l, order[to]))
  {
    var to := Target(l, order, from, x);
    var next := Move(order, from, to);
    var back := Target(l, next, to, y);
    TargetIs(l, order, from, x);
    TargetIs(l, next, to, y);
    MoveKeepsSolid(l, order, from, to);
    CrossedUpTo(l, next, to, to + 1, back, y);
    MoveBackwards(order, from, to);
    LeadBackwards(l, order, from, to, to + 1);
    assert order[from] in order && order[to] in order;
    CrossedAlong(l, order, from, to, x);
    CrossedAlong(l, next, to, to + 1, y);
  }
}
