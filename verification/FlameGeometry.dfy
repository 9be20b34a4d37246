/** Where the flame graph's rectangles go, over exact numbers. */
module FlameGeometry {
  import opened Flamegraph
  import opened FlameProperties

  /** A node as the drawing sees it: its total and its children. */
  datatype Tree = Node(total: nat, children: seq<Tree>)

  /** `weight` is the total of the node it stands for. */
  datatype Rect = Rect(x: real, y: real, w: real, h: real, depth: nat, weight: nat)

  /** The totals of the children from number `k` on. */
  function TotalsFrom(t: Tree, k: nat): nat
    requires k <= |t.children|
    decreases |t.children| - k
  {
    if k == |t.children| then 0 else t.children[k].total + TotalsFrom(t, k + 1)
  }

  /** Nowhere do the children weigh more than their parent. */
  predicate WellWeighted(t: Tree) {
    TotalsFrom(t, 0) <= t.total && forall i :: 0 <= i < |t.children| ==> WellWeighted(t.children[i])
  }

  // ---------- drawing

  function MaxDepth(t: Tree, depth: nat): (d: nat)
    ensures d >= depth
    decreases t, |t.children| + 1
  {
    MaxDepthFrom(t, 0, depth, depth)
  }

  function MaxDepthFrom(t: Tree, k: nat, depth: nat, d: nat): (d': nat)
    requires k <= |t.children|
    ensures d' >= d
    decreases t, |t.children| - k
  {
    if k == |t.children| then d else
    var child := MaxDepth(t.children[k], depth + 1);
    MaxDepthFrom(t, k + 1, depth, if child > d then child else d)
  }

  /** The width of a part in proportion. */
  function Share(part: nat, total: nat, w: real): real
    requires total > 0
  {
    part as real / total as real * w
  }

  datatype Frame = Frame(maxDepth: nat, rowHeight: real)

  function Y(g: Frame, depth: nat): real {
    (g.maxDepth - depth) as real * (g.rowHeight + 2.0) + 10.0
  }

  function Height(g: Frame): real {
    (g.maxDepth + 1) as real * (g.rowHeight + 2.0) + 40.0
  }

  /** `render_node_svg`, as the list of rectangles drawn. */
  function Render(g: Frame, t: Tree, x: real, w: real, depth: nat): seq<Rect>
    decreases t, |t.children| + 1
  {
    if w < 1.0 then [] else
    [Rect(x, Y(g, depth), w, g.rowHeight, depth, t.total)]
      + if t.total == 0 then [] else RenderFrom(g, t, 0, x, w, depth)
  }

  /** The children from number `k` on, the next one starting at `childX`. */
  function RenderFrom(g: Frame, t: Tree, k: nat, childX: real, w: real, depth: nat): seq<Rect>
    requires k <= |t.children| && t.total > 0
    decreases t, |t.children| - k
  {
    if k == |t.children| then [] else
    var childW := Share(t.children[k].total, t.total, w);
    Render(g, t.children[k], childX, childW, depth + 1) + RenderFrom(g, t, k + 1, childX + childW, w, depth)
  }

  /** `generate_svg`: nothing is drawn for an empty tree. */
  function Draw(t: Tree, width: real, rowHeight: real): seq<Rect> {
    if t.total == 0 then [] else Render(Frame(MaxDepth(t, 0), rowHeight), t, 0.0, width, 0)
  }

  // ---------- shares

  lemma ShareAdds(a: nat, b: nat, total: nat, w: real)
    requires total > 0
    ensures Share(a + b, total, w) == Share(a, total, w) + Share(b, total, w)
  {
    var n := total as real;
    assert (a + b) as real / n == a as real / n + b as real / n;
    Distribute(a as real / n, b as real / n, w);
  }

  lemma Distribute(a: real, b: real, w: real)
    ensures (a + b) * w == a * w + b * w
  {
  }

  lemma ShareInside(a: nat, total: nat, w: real)
    requires total > 0 && w >= 0.0
    ensures Share(a, total, w) >= 0.0
    ensures a <= total ==> Share(a, total, w) <= w
  {
    var part := a as real / total as real;
    Product(part, w);
    if a <= total { Product(1.0 - part, w); }
  }

  lemma Product(a: real, w: real)
    requires a >= 0.0 && w >= 0.0
    ensures a * w >= 0.0
  {
  }

  // ---------- rectangles stay inside, in a row, and under their parents

  /** `r` lies between `from` and `to`, at depth `depth` or below. */
  predicate Within(r: Rect, from: real, to: real, depth: nat) {
    from <= r.x && r.x + r.w <= to && r.w >= 1.0 && r.depth >= depth
  }

  ghost predicate AllWithin(rs: seq<Rect>, from: real, to: real, depth: nat) {
    forall i :: 0 <= i < |rs| ==> Within(rs[i], from, to, depth)
  }

  /** Of two rectangles at one depth the earlier ends before the later begins. */
  ghost predicate InRows(rs: seq<Rect>) {
    forall i, j :: 0 <= i < j < |rs| && rs[i].depth == rs[j].depth ==> rs[i].x + rs[i].w <= rs[j].x
  }

  /** `p` is one level above `r` and spans it. */
  predicate Above(p: Rect, r: Rect) {
    p.depth + 1 == r.depth && p.x <= r.x && r.x + r.w <= p.x + p.w
  }

  /** Some rectangle before number `i` is its parent. */
  ghost predicate HasParent(rs: seq<Rect>, i: nat)
    requires i < |rs|
  {
    exists j :: 0 <= j < i && Above(rs[j], rs[i])
  }

  /** Every rectangle is at the top depth inside the given span, or under one drawn before it. */
  ghost predicate Hung(rs: seq<Rect>, from: real, to: real, top: nat) {
    forall i :: 0 <= i < |rs| ==> (rs[i].depth == top && Within(rs[i], from, to, top)) || HasParent(rs, i)
  }

  lemma JoinRows(a: seq<Rect>, b: seq<Rect>, from: real, mid: real, to: real, depth: nat)
    requires AllWithin(a, from, mid, depth) && AllWithin(b, mid, to, depth) && InRows(a) && InRows(b)
    ensures InRows(a + b)
  {
    var c := a + b;
    forall i, j | 0 <= i < j < |c| && c[i].depth == c[j].depth ensures c[i].x + c[i].w <= c[j].x {
      if i < |a| <= j { assert Within(a[i], from, mid, depth) && Within(b[j - |a|], mid, to, depth); }
    }
  }

  lemma JoinWithin(a: seq<Rect>, b: seq<Rect>, from: real, mid: real, to: real, depth: nat)
    requires AllWithin(a, from, mid, depth) && AllWithin(b, mid, to, depth) && from <= mid <= to
    ensures AllWithin(a + b, from, to, depth)
  {
    forall i | 0 <= i < |a + b| ensures Within((a + b)[i], from, to, depth) {
      if i < |a| { assert Within(a[i], from, mid, depth); } else { assert Within(b[i - |a|], mid, to, depth); }
    }
  }

  lemma JoinHung(a: seq<Rect>, b: seq<Rect>, from: real, mid: real, to: real, top: nat)
    requires Hung(a, from, mid, top) && Hung(b, mid, to, top) && from <= mid <= to
    ensures Hung(a + b, from, to, top)
  {
    hide HasParent, Above;
    var c := a + b;
    forall i | 0 <= i < |c| ensures (c[i].depth == top && Within(c[i], from, to, top)) || HasParent(c, i) {
      if i < |a| {
        if HasParent(a, i) { ParentMoves(a, c, 0, i); }
      } else {
        assert b[i - |a|] == c[i];
        if HasParent(b, i - |a|) { ParentMoves(b, c, |a|, i - |a|); }
      }
    }
  }

  /** A parent stays one when the list becomes part of a longer one. */
  lemma ParentMoves(a: seq<Rect>, c: seq<Rect>, offset: nat, i: nat)
    requires i < |a| && HasParent(a, i) && offset + |a| <= |c|
    requires forall k :: 0 <= k < |a| ==> c[offset + k] == a[k]
    ensures HasParent(c, offset + i)
  {
    hide Above;
    var j :| 0 <= j < i && Above(a[j], a[i]);
    assert c[offset + j] == a[j] && c[offset + i] == a[i];
    assert Above(c[offset + j], c[offset + i]);
  }

  /** The children drawn from `childX` on stay within what their totals leave of the width. */
  lemma {:induction false} ChildrenInside(g: Frame, t: Tree, k: nat, childX: real, w: real, depth: nat)
    requires k <= |t.children| && t.total > 0 && w >= 0.0
    requires forall i :: k <= i < |t.children| ==> WellWeighted(t.children[i])
    ensures var rs := RenderFrom(g, t, k, childX, w, depth); var end := childX + Share(TotalsFrom(t, k), t.total, w);
      AllWithin(rs, childX, end, depth + 1) && InRows(rs) && Hung(rs, childX, end, depth + 1)
    decreases t, |t.children| - k
  {
    hide AllWithin, InRows, Hung, Share, WellWeighted;
    if k == |t.children| {
      NoRects(childX, childX + Share(TotalsFrom(t, k), t.total, w), depth + 1);
    } else {
      var child := t.children[k];
      var childW := Share(child.total, t.total, w);
      var first := Render(g, child, childX, childW, depth + 1);
      var rest := RenderFrom(g, t, k + 1, childX + childW, w, depth);
      var mid := childX + childW;
      var end := childX + Share(TotalsFrom(t, k), t.total, w);
      ShareAdds(child.total, TotalsFrom(t, k + 1), t.total, w);
      ShareInside(child.total, t.total, w);
      ShareInside(TotalsFrom(t, k + 1), t.total, w);
      TreeInside(g, child, childX, childW, depth + 1);
      ChildrenInside(g, t, k + 1, mid, w, depth);
      JoinWithin(first, rest, childX, mid, end, depth + 1);
      JoinRows(first, rest, childX, mid, end, depth + 1);
      JoinHung(first, rest, childX, mid, end, depth + 1);
    }
  }

  lemma NoRects(from: real, to: real, depth: nat)
    ensures AllWithin([], from, to, depth) && InRows([]) && Hung([], from, to, depth)
  {
  }

  /** A subtree drawn in a span stays in it. */
  lemma {:induction false} TreeInside(g: Frame, t: Tree, x: real, w: real, depth: nat)
    requires WellWeighted(t) && w >= 0.0
    ensures var rs := Render(g, t, x, w, depth);
      && AllWithin(rs, x, x + w, depth) && InRows(rs) && Hung(rs, x, x + w, depth)
      && forall i :: 0 < i < |rs| ==> rs[i].depth > depth
    decreases t, |t.children| + 1
  {
    if w >= 1.0 {
      var own := Rect(x, Y(g, depth), w, g.rowHeight, depth, t.total);
      if t.total > 0 {
        var rs := RenderFrom(g, t, 0, x, w, depth);
        ChildrenInside(g, t, 0, x, w, depth);
        ShareInside(TotalsFrom(t, 0), t.total, w);
        UnderOne(own, rs, x + Share(TotalsFrom(t, 0), t.total, w));
      } else {
        assert Render(g, t, x, w, depth) == [own];
      }
    }
  }

  /** A rectangle and the ones hung under it. */
  lemma UnderOne(own: Rect, rs: seq<Rect>, end: real)
    requires own.w >= 1.0 && end <= own.x + own.w
    requires AllWithin(rs, own.x, end, own.depth + 1) && InRows(rs) && Hung(rs, own.x, end, own.depth + 1)
    ensures AllWithin([own] + rs, own.x, own.x + own.w, own.depth)
    ensures InRows([own] + rs) && Hung([own] + rs, own.x, own.x + own.w, own.depth)
    ensures forall i :: 0 < i < |[own] + rs| ==> ([own] + rs)[i].depth > own.depth
  {
    hide InRows, Hung;
    var c := [own] + rs;
    forall i | 0 < i < |c| ensures Within(c[i], own.x, own.x + own.w, own.depth + 1) {
      assert Within(rs[i - 1], own.x, end, own.depth + 1);
    }
    OneThenRows(own, rs, c);
    OneThenHung(own, rs, c, end);
  }

  lemma OneThenRows(own: Rect, rs: seq<Rect>, c: seq<Rect>)
    requires c == [own] + rs && InRows(rs) && forall i :: 0 < i < |c| ==> c[i].depth > own.depth
    ensures InRows(c)
  {
    forall i, j | 0 <= i < j < |c| && c[i].depth == c[j].depth ensures c[i].x + c[i].w <= c[j].x {
      if i > 0 { assert rs[i - 1] == c[i] && rs[j - 1] == c[j]; }
    }
  }

  lemma OneThenHung(own: Rect, rs: seq<Rect>, c: seq<Rect>, end: real)
    requires c == [own] + rs && own.w >= 1.0 && end <= own.x + own.w && Hung(rs, own.x, end, own.depth + 1)
    ensures Hung(c, own.x, own.x + own.w, own.depth)
  {
    hide HasParent;
    forall i | 0 < i < |c| ensures HasParent(c, i) {
      assert c[i] == rs[i - 1];
      if HasParent(rs, i - 1) {
        ParentMoves(rs, c, 1, i - 1);
      } else {
        OwnIsParent(own, c, i, end);
      }
    }
    assert c[0] == own && Within(own, own.x, own.x + own.w, own.depth);
  }

  lemma OwnIsParent(own: Rect, c: seq<Rect>, i: nat, end: real)
    requires 0 < i < |c| && c[0] == own && end <= own.x + own.w
    requires c[i].depth == own.depth + 1 && Within(c[i], own.x, end, own.depth + 1)
    ensures HasParent(c, i)
  {
    assert Above(c[0], c[i]);
  }

  // ---------- heights

  lemma {:induction false} DepthFrom(t: Tree, k: nat, depth: nat, d: nat, i: nat)
    requires k <= i < |t.children|
    ensures MaxDepth(t.children[i], depth + 1) <= MaxDepthFrom(t, k, depth, d)
    decreases |t.children| - k
  {
    hide MaxDepth;
    if k < i {
      var child := MaxDepth(t.children[k], depth + 1);
      DepthFrom(t, k + 1, depth, if child > d then child else d, i);
    }
  }

  /** No rectangle is deeper than the computed depth. */
  lemma {:induction false} DepthIsEnough(g: Frame, t: Tree, x: real, w: real, depth: nat)
    ensures forall i :: 0 <= i < |Render(g, t, x, w, depth)| ==>
      Render(g, t, x, w, depth)[i].depth <= MaxDepth(t, depth)
    decreases t, |t.children| + 1
  {
    if w >= 1.0 && t.total > 0 { ChildDepthIsEnough(g, t, 0, x, w, depth); }
  }

  lemma {:induction false} ChildDepthIsEnough(g: Frame, t: Tree, k: nat, childX: real, w: real, depth: nat)
    requires k <= |t.children| && t.total > 0
    ensures forall i :: 0 <= i < |RenderFrom(g, t, k, childX, w, depth)| ==>
      RenderFrom(g, t, k, childX, w, depth)[i].depth <= MaxDepth(t, depth)
    decreases t, |t.children| - k
  {
    hide Share;
    if k < |t.children| {
      var childW := Share(t.children[k].total, t.total, w);
      DepthIsEnough(g, t.children[k], childX, childW, depth + 1);
      ChildDepthIsEnough(g, t, k + 1, childX + childW, w, depth);
      DepthFrom(t, 0, depth, depth, k);
    }
  }

  /** `r` has the place and height of its row. */
  predicate OnItsRow(g: Frame, r: Rect) { r.y == Y(g, r.depth) && r.h == g.rowHeight }

  lemma {:induction false} RowsAreRight(g: Frame, t: Tree, x: real, w: real, depth: nat)
    ensures forall i :: 0 <= i < |Render(g, t, x, w, depth)| ==> OnItsRow(g, Render(g, t, x, w, depth)[i])
    decreases t, |t.children| + 1
  {
    hide Y;
    if w >= 1.0 && t.total > 0 { ChildRowsAreRight(g, t, 0, x, w, depth); }
  }

  lemma {:induction false} ChildRowsAreRight(g: Frame, t: Tree, k: nat, childX: real, w: real, depth: nat)
    requires k <= |t.children| && t.total > 0
    ensures forall i :: 0 <= i < |RenderFrom(g, t, k, childX, w, depth)| ==>
      OnItsRow(g, RenderFrom(g, t, k, childX, w, depth)[i])
    decreases t, |t.children| - k
  {
    hide Share, OnItsRow;
    if k < |t.children| {
      var childW := Share(t.children[k].total, t.total, w);
      RowsAreRight(g, t.children[k], childX, childW, depth + 1);
      ChildRowsAreRight(g, t, k + 1, childX + childW, w, depth);
    }
  }

  lemma RowInPicture(g: Frame, depth: nat)
    requires depth <= g.maxDepth && g.rowHeight >= 0.0
    ensures 10.0 <= Y(g, depth) && Y(g, depth) + g.rowHeight <= Height(g)
  {
    var row := g.rowHeight + 2.0;
    Product((g.maxDepth - depth) as real, row);
    Product(depth as real, row);
    assert g.maxDepth as real == (g.maxDepth - depth) as real + depth as real;
    Distribute((g.maxDepth - depth) as real, depth as real, row);
    Distribute(g.maxDepth as real, 1.0, row);
  }

  lemma RowsApart(g: Frame, a: nat, b: nat)
    requires a < b <= g.maxDepth && g.rowHeight >= 0.0
    ensures Y(g, b) + g.rowHeight < Y(g, a)
  {
    var row := g.rowHeight + 2.0;
    assert (g.maxDepth - a) as real == (g.maxDepth - b) as real + (b - a) as real;
    Distribute((g.maxDepth - b) as real, (b - a) as real, row);
    Product((b - a - 1) as real, row);
    Distribute((b - a - 1) as real, 1.0, row);
  }

  /** The two rectangles have no inner point in common. */
  predicate Apart(a: Rect, b: Rect) {
    a.x + a.w <= b.x || b.x + b.w <= a.x || a.y + a.h <= b.y || b.y + b.h <= a.y
  }

  // ---------- main results

  /**
   Every rectangle lies in the picture, every one but the first lies under its parent and within
   its parent's width, and no two overlap.
   */
  ghost predicate IsSound(rs: seq<Rect>, g: Frame, width: real) {
    && (forall i :: 0 <= i < |rs| ==>
          && 0.0 <= rs[i].x && rs[i].x + rs[i].w <= width
          && 0.0 <= rs[i].y && rs[i].y + rs[i].h <= Height(g))
    && (forall i :: 0 < i < |rs| ==> HasParent(rs, i))
    && (forall i, j :: 0 <= i < j < |rs| ==> Apart(rs[i], rs[j]))
  }

  lemma DrawingIsSound(t: Tree, width: real, rowHeight: real)
    requires WellWeighted(t) && rowHeight >= 0.0
    ensures IsSound(Draw(t, width, rowHeight), Frame(MaxDepth(t, 0), rowHeight), width)
  {
    hide Y, Height, MaxDepth, WellWeighted, Render, AllWithin, InRows, Hung, Apart, HasParent, OnItsRow;
    var g := Frame(MaxDepth(t, 0), rowHeight);
    if t.total > 0 && width < 1.0 {
      NotWideEnough(g, t, width);
    } else if t.total > 0 {
      TreeInside(g, t, 0.0, width, 0);
      DepthIsEnough(g, t, 0.0, width, 0);
      RowsAreRight(g, t, 0.0, width, 0);
      RowsAreSound(g, Render(g, t, 0.0, width, 0), width);
    }
  }

  /** Rectangles in their rows and under their parents, none too deep, are sound. */
  lemma RowsAreSound(g: Frame, rs: seq<Rect>, width: real)
    requires g.rowHeight >= 0.0 && AllWithin(rs, 0.0, width, 0) && InRows(rs) && Hung(rs, 0.0, width, 0)
    requires forall i :: 0 < i < |rs| ==> rs[i].depth > 0
    requires forall i :: 0 <= i < |rs| ==> rs[i].depth <= g.maxDepth
    requires forall i :: 0 <= i < |rs| ==> OnItsRow(g, rs[i])
    ensures IsSound(rs, g, width)
  {
    hide Y, Height, HasParent;
    forall i | 0 <= i < |rs| ensures 10.0 <= rs[i].y && rs[i].y + rs[i].h <= Height(g) {
      RowInPicture(g, rs[i].depth);
    }
    forall i, j | 0 <= i < j < |rs| ensures Apart(rs[i], rs[j]) {
      if rs[i].depth < rs[j].depth { RowsApart(g, rs[i].depth, rs[j].depth); }
      if rs[j].depth < rs[i].depth { RowsApart(g, rs[j].depth, rs[i].depth); }
    }
  }

  lemma NotWideEnough(g: Frame, t: Tree, w: real)
    requires w < 1.0
    ensures Render(g, t, 0.0, w, 0) == []
  {
  }

  // ---------- what is drawn, and how wide

  /** A node in the picture: how much weight lies to the left of it, its own weight, and its depth. */
  datatype Place = Place(left: nat, weight: nat, depth: nat)

  /**
   The nodes whose share of the whole width is at least 1, from the root on. A node begins where its
   parent does, plus the weight of its earlier siblings.
   */
  function Heavy(t: Tree, left: nat, depth: nat, all: nat, width: real): seq<Place>
    requires all > 0
    decreases t, |t.children| + 1
  {
    (if Share(t.total, all, width) >= 1.0 then [Place(left, t.total, depth)] else [])
      + HeavyFrom(t, 0, left, depth, all, width)
  }

  function HeavyFrom(t: Tree, k: nat, left: nat, depth: nat, all: nat, width: real): seq<Place>
    requires k <= |t.children| && all > 0
    decreases t, |t.children| - k
  {
    if k == |t.children| then [] else
    Heavy(t.children[k], left, depth + 1, all, width)
      + HeavyFrom(t, k + 1, left + t.children[k].total, depth, all, width)
  }

  /** `r` is the rectangle of the node at `p`. */
  predicate DrawnAt(r: Rect, p: Place, g: Frame, all: nat, width: real)
    requires all > 0
  {
    && r.x == p.left as real / all as real * width && r.w == p.weight as real / all as real * width
    && r.y == (g.maxDepth - p.depth) as real * (g.rowHeight + 2.0) + 10.0 && r.h == g.rowHeight
    && r.depth == p.depth && r.weight == p.weight
  }

  /** The rectangles `rs` are those of the nodes at `ps`, in order. */
  ghost predicate AllDrawnAt(rs: seq<Rect>, ps: seq<Place>, g: Frame, all: nat, width: real)
    requires all > 0
  {
    |rs| == |ps| && forall i :: 0 <= i < |rs| ==> DrawnAt(rs[i], ps[i], g, all, width)
  }

  lemma ShareOfShare(a: nat, b: nat, all: nat, width: real)
    requires b > 0 && all > 0
    ensures Share(a, b, Share(b, all, width)) == Share(a, all, width)
  {
    var x, y, z := a as real, b as real, all as real;
    assert (x / y) * (y / z) == x / z;
    Regroup(x / y, y / z, width);
  }

  lemma Regroup(a: real, b: real, w: real)
    ensures a * (b * w) == (a * b) * w
  {
  }

  lemma {:induction false} ChildIsLighter(t: Tree, k: nat, i: nat)
    requires k <= i < |t.children|
    ensures t.children[i].total <= TotalsFrom(t, k)
    decreases i - k
  {
    if k < i { ChildIsLighter(t, k + 1, i); }
  }

  lemma ShareGrows(a: nat, b: nat, all: nat, width: real)
    requires a <= b && all > 0 && width >= 0.0
    ensures Share(a, all, width) <= Share(b, all, width)
  {
    ShareAdds(a, b - a, all, width);
    ShareInside(b - a, all, width);
  }

  /** Below a node that is too narrow everything is. */
  lemma {:induction false} LightIsAllLight(t: Tree, left: nat, depth: nat, all: nat, width: real)
    requires WellWeighted(t) && all > 0 && width >= 0.0 && Share(t.total, all, width) < 1.0
    ensures Heavy(t, left, depth, all, width) == []
    decreases t, |t.children| + 1
  {
    hide Share, WellWeighted;
    LightChildren(t, 0, left, depth, all, width);
  }

  lemma {:induction false} LightChildren(t: Tree, k: nat, left: nat, depth: nat, all: nat, width: real)
    requires k <= |t.children| && WellWeighted(t) && all > 0 && width >= 0.0 && Share(t.total, all, width) < 1.0
    ensures HeavyFrom(t, k, left, depth, all, width) == []
    decreases t, |t.children| - k
  {
    hide Share;
    if k < |t.children| {
      ChildIsLighter(t, 0, k);
      ShareGrows(t.children[k].total, t.total, all, width);
      LightIsAllLight(t.children[k], left, depth + 1, all, width);
      LightChildren(t, k + 1, left + t.children[k].total, depth, all, width);
    }
  }

  lemma JoinDrawn(a: seq<Rect>, b: seq<Rect>, p: seq<Place>, q: seq<Place>, g: Frame, all: nat, width: real)
    requires all > 0 && AllDrawnAt(a, p, g, all, width) && AllDrawnAt(b, q, g, all, width)
    ensures AllDrawnAt(a + b, p + q, g, all, width)
  {
    hide DrawnAt;
  }

  lemma {:induction false} TreeDrawn(g: Frame, t: Tree, left: nat, depth: nat, all: nat, width: real)
    requires WellWeighted(t) && all > 0 && width >= 0.0
    ensures var rs := Render(g, t, Share(left, all, width), Share(t.total, all, width), depth);
      AllDrawnAt(rs, Heavy(t, left, depth, all, width), g, all, width)
    decreases t, |t.children| + 1
  {
    hide Share, WellWeighted, Y, AllDrawnAt;
    var x, w := Share(left, all, width), Share(t.total, all, width);
    if w < 1.0 {
      LightIsAllLight(t, left, depth, all, width);
      NothingDrawn(g, all, width);
    } else {
      assert t.total > 0 by { NoShare(all, width); }
      var own := Rect(x, Y(g, depth), w, g.rowHeight, depth, t.total);
      OneDrawn(own, Place(left, t.total, depth), g, all, width);
      ChildrenDrawn(g, t, 0, left, depth, all, width);
      JoinDrawn([own], RenderFrom(g, t, 0, x, w, depth), [Place(left, t.total, depth)],
                HeavyFrom(t, 0, left, depth, all, width), g, all, width);
    }
  }

  lemma NoShare(all: nat, width: real)
    requires all > 0
    ensures Share(0, all, width) == 0.0
  {
  }

  lemma NothingDrawn(g: Frame, all: nat, width: real)
    requires all > 0
    ensures AllDrawnAt([], [], g, all, width)
  {
  }

  lemma OneDrawn(own: Rect, p: Place, g: Frame, all: nat, width: real)
    requires all > 0 && own.x == Share(p.left, all, width) && own.w == Share(p.weight, all, width)
    requires own.y == Y(g, p.depth) && own.h == g.rowHeight && own.depth == p.depth && own.weight == p.weight
    ensures AllDrawnAt([own], [p], g, all, width)
  {
  }

  lemma {:induction false} ChildrenDrawn(g: Frame, t: Tree, k: nat, left: nat, depth: nat, all: nat, width: real)
    requires k <= |t.children| && t.total > 0 && WellWeighted(t) && all > 0 && width >= 0.0
    ensures var rs := RenderFrom(g, t, k, Share(left, all, width), Share(t.total, all, width), depth);
      AllDrawnAt(rs, HeavyFrom(t, k, left, depth, all, width), g, all, width)
    decreases t, |t.children| - k
  {
    hide Share, AllDrawnAt, TotalsFrom;
    var childX, w := Share(left, all, width), Share(t.total, all, width);
    if k == |t.children| {
      NothingDrawn(g, all, width);
    } else {
      var child := t.children[k];
      ShareOfShare(child.total, t.total, all, width);
      var childW := Share(child.total, t.total, w);
      ShareAdds(left, child.total, all, width);
      TreeDrawn(g, child, left, depth + 1, all, width);
      ChildrenDrawn(g, t, k + 1, left + child.total, depth, all, width);
      JoinDrawn(Render(g, child, childX, childW, depth + 1), RenderFrom(g, t, k + 1, childX + childW, w, depth),
                Heavy(child, left, depth + 1, all, width),
                HeavyFrom(t, k + 1, left + child.total, depth, all, width), g, all, width);
    }
  }

  /**
   Exactly the nodes whose share of the width is at least 1 are drawn, in order, each as wide as its
   share, as far right as what lies left of it, and in the row of its depth.
   */
  lemma DrawingIsComplete(t: Tree, width: real, rowHeight: real)
    requires WellWeighted(t) && t.total > 0 && width >= 0.0
    ensures AllDrawnAt(Draw(t, width, rowHeight), Heavy(t, 0, 0, t.total, width), Frame(MaxDepth(t, 0), rowHeight),
                       t.total, width)
  {
    hide Share, Render, AllDrawnAt, Heavy, WellWeighted, MaxDepth;
    WholeShare(t.total, width);
    NoShare(t.total, width);
    TreeDrawn(Frame(MaxDepth(t, 0), rowHeight), t, 0, 0, t.total, width);
  }

  lemma WholeShare(all: nat, width: real)
    requires all > 0
    ensures Share(all, all, width) == width
  {
  }

  // ---------- the depth of a tree

  /** `path` leads down the tree, child number by child number. */
  predicate IsBranch(t: Tree, path: seq<nat>) {
    path == [] || (path[0] < |t.children| && IsBranch(t.children[path[0]], path[1..]))
  }

  lemma {:induction false} NoBranchIsLonger(t: Tree, depth: nat, path: seq<nat>)
    requires IsBranch(t, path)
    ensures depth + |path| <= MaxDepth(t, depth)
    decreases |path|
  {
    hide MaxDepthFrom;
    if path != [] {
      NoBranchIsLonger(t.children[path[0]], depth + 1, path[1..]);
      DepthFrom(t, 0, depth, depth, path[0]);
    }
  }

  /** `get_max_depth` is the depth of the deepest node: no branch is longer, and one is as long. */
  lemma {:induction false} DepthIsExact(t: Tree, depth: nat) returns (path: seq<nat>)
    ensures IsBranch(t, path) && depth + |path| == MaxDepth(t, depth)
    ensures forall q :: IsBranch(t, q) ==> depth + |q| <= MaxDepth(t, depth)
    decreases t, |t.children| + 1
  {
    hide MaxDepthFrom;
    path := DepthFromIsExact(t, 0, depth, depth, []);
    forall q | IsBranch(t, q) ensures depth + |q| <= MaxDepth(t, depth) { NoBranchIsLonger(t, depth, q); }
  }

  /** Some branch below a child from number `k` on, or `best`, is as long as the depth computed from there. */
  lemma {:induction false} DepthFromIsExact(t: Tree, k: nat, depth: nat, d: nat, best: seq<nat>)
    returns (path: seq<nat>)
    requires k <= |t.children| && IsBranch(t, best) && depth + |best| == d
    ensures IsBranch(t, path) && depth + |path| == MaxDepthFrom(t, k, depth, d)
    decreases t, |t.children| - k
  {
    hide MaxDepth;
    if k == |t.children| { return best; }
    var below := DepthIsExact(t.children[k], depth + 1);
    var child := MaxDepth(t.children[k], depth + 1);
    assert ([k] + below)[1..] == below;
    path := DepthFromIsExact(t, k + 1, depth, if child > d then child else d, if child > d then [k] + below else best);
  }

  // ---------- the trees that build_tree makes

  /** `t` is all of the tree below `p`. */
  ghost predicate Depicts(t: Tree, f: Flame, p: Path) {
    && p in f && t.total == f[p].total.bytes && |t.children| == |f[p].children|
    && forall i :: 0 <= i < |t.children| ==> Depicts(t.children[i], f, Child(p, f[p].children[i]))
  }

  lemma {:induction false} OneTree(t: Tree, u: Tree, f: Flame, p: Path)
    requires Depicts(t, f, p) && Depicts(u, f, p)
    ensures t == u
  {
    hide Child;
    forall i | 0 <= i < |t.children| ensures t.children[i] == u.children[i] {
      OneTree(t.children[i], u.children[i], f, Child(p, f[p].children[i]));
    }
  }

  /** The length of the longest path. */
  function Deepest(ss: seq<Sample>): (n: nat)
    ensures forall i :: 0 <= i < |ss| ==> |ss[i].path| <= n
  {
    if ss == [] then 0 else
    var last, n := |ss[|ss| - 1].path|, Deepest(ss[..|ss| - 1]);
    if last > n then last else n
  }

  lemma NothingDeeper(f: Flame, ss: seq<Sample>, p: Path)
    requires IsFlame(f, ss) && p in f
    ensures |p| <= Deepest(ss)
  {
    hide EndingAt, Through, Child;
  }

  /** The tree below `p` of a finite merge has a depiction. */
  lemma {:induction false} WholeTree(f: Flame, ss: seq<Sample>, p: Path) returns (t: Tree)
    requires IsFlame(f, ss) && p in f
    ensures Depicts(t, f, p)
    decreases Deepest(ss) - |p|
  {
    hide IsFlame, Deepest;
    TotalIsSelfPlusChildren(f, ss, p);
    NothingDeeper(f, ss, p);
    var names := f[p].children;
    forall i | 0 <= i < |names| ensures exists u :: Depicts(u, f, Child(p, names[i])) {
      NothingDeeper(f, ss, Child(p, names[i]));
      var u := WholeTree(f, ss, Child(p, names[i]));
    }
    var below := seq(|names|, i requires 0 <= i < |names| =>
      var u :| Depicts(u, f, Child(p, names[i])); u);
    t := Node(f[p].total.bytes, below);
  }

  lemma {:induction false} BuiltTotals(t: Tree, f: Flame, p: Path, k: nat)
    requires Depicts(t, f, p) && k <= |t.children|
    requires forall i :: 0 <= i < |f[p].children| ==> Child(p, f[p].children[i]) in f
    ensures TotalsFrom(t, k) + ChildTotals(f, p, f[p].children, k).bytes
      == ChildTotals(f, p, f[p].children, |f[p].children|).bytes
    decreases |t.children| - k
  {
    hide Child;
    if k < |t.children| {
      assert Depicts(t.children[k], f, Child(p, f[p].children[k]));
      BuiltTotals(t, f, p, k + 1);
    }
  }

  /** Every tree that `build_tree` makes is well weighted. */
  lemma {:induction false} BuiltTreesAreWellWeighted(t: Tree, f: Flame, ss: seq<Sample>, p: Path)
    requires IsFlame(f, ss) && Depicts(t, f, p)
    ensures WellWeighted(t)
  {
    hide IsFlame, Child;
    TotalIsSelfPlusChildren(f, ss, p);
    BuiltTotals(t, f, p, 0);
    forall i | 0 <= i < |t.children| ensures WellWeighted(t.children[i]) {
      BuiltTreesAreWellWeighted(t.children[i], f, ss, Child(p, f[p].children[i]));
    }
  }

  /**
   The tree that `build_tree` makes of any folded lines is one tree, as heavy as all lines together,
   and its drawing is sound and complete.
   */
  lemma BuiltTreeIsDrawn(f: Flame, ss: seq<Sample>, width: real, rowHeight: real) returns (t: Tree)
    requires IsFlame(f, ss) && width >= 0.0 && rowHeight >= 0.0
    ensures Depicts(t, f, []) && forall u :: Depicts(u, f, []) ==> u == t
    ensures t.total == AllBytes(ss)
    ensures IsSound(Draw(t, width, rowHeight), Frame(MaxDepth(t, 0), rowHeight), width)
    ensures AllBytes(ss) == 0 ==> Draw(t, width, rowHeight) == []
    ensures AllBytes(ss) > 0 ==>
      AllDrawnAt(Draw(t, width, rowHeight), Heavy(t, 0, 0, t.total, width), Frame(MaxDepth(t, 0), rowHeight), t.total,
                 width)
  {
    hide IsFlame, IsSound, WellWeighted, AllDrawnAt, Heavy, Render, MaxDepth, Share;
    RootTotalIsEverything(f, ss);
    t := WholeTree(f, ss, []);
    forall u | Depicts(u, f, []) ensures u == t { OneTree(t, u, f, []); }
    BuiltTreesAreWellWeighted(t, f, ss, []);
    DrawingIsSound(t, width, rowHeight);
    if t.total > 0 { DrawingIsComplete(t, width, rowHeight); }
  }
}
