/**
 * The frameless main window `QuiltApplication`: which border region a
 * point is in, the cursor shown over it, and the resize state machine driven
 * by press, move and release events.
 *
 * Geometry is integer arithmetic on points and on rectangles `(x, y, w, h)`.
 * The window is frameless, so its position is the `(x, y)` of its geometry,
 * and `rect()` is `(0, 0, w, h)`.
 */
module UiWindows {
  import opened Wrappers
  import opened PyText

  datatype Point = Point(x: int, y: int)

  /** `QPoint` subtraction. */
  function Minus(a: Point, b: Point): (d: Point)
    ensures Plus(b, d) == a
  {
    Point(a.x - b.x, a.y - b.y)
  }

  /** `QPoint` addition. */
  function Plus(a: Point, b: Point): Point {
    Point(a.x + b.x, a.y + b.y)
  }

  /** A `QRect`: top-left corner, width and height. */
  datatype Rect = Rect(x: int, y: int, w: int, h: int)

  /** `QRect.setX`: moves the left edge and keeps the right edge where it was. */
  function SetX(r: Rect, x: int): (s: Rect)
    ensures s.x == x && s.x + s.w == r.x + r.w && s.y == r.y && s.h == r.h
  {
    Rect(x, r.y, r.w + r.x - x, r.h)
  }

  /** `QRect.setWidth`: keeps the left edge. */
  function SetWidth(r: Rect, w: int): (s: Rect)
    ensures s.x == r.x && s.w == w && s.y == r.y && s.h == r.h
  {
    r.(w := w)
  }

  /** `QRect.setY`: moves the top edge and keeps the bottom edge where it was. */
  function SetY(r: Rect, y: int): (s: Rect)
    ensures s.y == y && s.y + s.h == r.y + r.h && s.x == r.x && s.w == r.w
  {
    Rect(r.x, y, r.w, r.h + r.y - y)
  }

  /** `QRect.setHeight`: keeps the top edge. */
  function SetHeight(r: Rect, h: int): (s: Rect)
    ensures s.y == r.y && s.h == h && s.x == r.x && s.w == r.w
  {
    r.(h := h)
  }

  /** `QWidget.move` on a frameless window: a new position, the same size. */
  function MoveTo(r: Rect, p: Point): (s: Rect)
    ensures s.x == p.x && s.y == p.y && s.w == r.w && s.h == r.h
  {
    r.(x := p.x, y := p.y)
  }

  /** The border regions `_get_edge_at` names; `None` stands for the interior. */
  datatype Edge = TopLeft | TopRight | BottomLeft | BottomRight | Top | Bottom | Left | Right

  /** The string the source uses for each region. */
  function EdgeName(e: Edge): string {
    match e
    case TopLeft => "top_left"
    case TopRight => "top_right"
    case BottomLeft => "bottom_left"
    case BottomRight => "bottom_right"
    case Top => "top"
    case Bottom => "bottom"
    case Left => "left"
    case Right => "right"
  }

  predicate HasTop(e: Edge) {
    e.TopLeft? || e.TopRight? || e.Top?
  }

  predicate HasBottom(e: Edge) {
    e.BottomLeft? || e.BottomRight? || e.Bottom?
  }

  predicate HasLeft(e: Edge) {
    e.TopLeft? || e.BottomLeft? || e.Left?
  }

  predicate HasRight(e: Edge) {
    e.TopRight? || e.BottomRight? || e.Right?
  }

  /**
   * `'left' in edge_name` holds exactly for the left regions, and likewise
   * for the other three sides, so the resize code below tests the side
   * predicates where the source tests substrings.
   */
  lemma EdgeSides(e: Edge)
    ensures Contains(EdgeName(e), "left") <==> HasLeft(e)
    ensures Contains(EdgeName(e), "right") <==> HasRight(e)
    ensures Contains(EdgeName(e), "top") <==> HasTop(e)
    ensures Contains(EdgeName(e), "bottom") <==> HasBottom(e)
  {
    EdgeLeft(e);
    EdgeRight(e);
    EdgeTop(e);
    EdgeBottom(e);
  }

  lemma EdgeLeft(e: Edge)
    ensures Contains(EdgeName(e), "left") <==> HasLeft(e)
  {
    if HasLeft(e) {
      LeftNamesContain(e);
    } else {
      OtherNamesLackLeft(e);
    }
  }

  /** The left regions' names contain `left`. */
  lemma LeftNamesContain(e: Edge)
    requires HasLeft(e)
    ensures Contains(EdgeName(e), "left")
  {
    match e
    case TopLeft => ContainsAt("top_left", "left", 4);
    case BottomLeft => ContainsAt("bottom_left", "left", 7);
    case Left => ContainsAt("left", "left", 0);
  }

  /** The other names lack the letter `l`. */
  lemma OtherNamesLackLeft(e: Edge)
    requires !HasLeft(e)
    ensures !Contains(EdgeName(e), "left")
  {
    match e
    case TopRight => NotContainsChar("top_right", "left", 0);
    case BottomRight => NotContainsChar("bottom_right", "left", 0);
    case Top => NotContainsChar("top", "left", 0);
    case Bottom => NotContainsChar("bottom", "left", 0);
    case Right => NotContainsChar("right", "left", 0);
  }

  lemma EdgeRight(e: Edge)
    ensures Contains(EdgeName(e), "right") <==> HasRight(e)
  {
    if HasRight(e) {
      RightNamesContain(e);
    } else {
      OtherNamesLackRight(e);
    }
  }

  /** The right regions' names contain `right`. */
  lemma RightNamesContain(e: Edge)
    requires HasRight(e)
    ensures Contains(EdgeName(e), "right")
  {
    match e
    case TopRight => ContainsAt("top_right", "right", 4);
    case BottomRight => ContainsAt("bottom_right", "right", 7);
    case Right => ContainsAt("right", "right", 0);
  }

  /** The other names lack the letter `r`. */
  lemma OtherNamesLackRight(e: Edge)
    requires !HasRight(e)
    ensures !Contains(EdgeName(e), "right")
  {
    match e
    case TopLeft => NotContainsChar("top_left", "right", 0);
    case BottomLeft => NotContainsChar("bottom_left", "right", 0);
    case Top => NotContainsChar("top", "right", 0);
    case Bottom => NotContainsChar("bottom", "right", 0);
    case Left => NotContainsChar("left", "right", 0);
  }

  lemma EdgeTop(e: Edge)
    ensures Contains(EdgeName(e), "top") <==> HasTop(e)
  {
    if HasTop(e) {
      TopNamesContain(e);
    } else {
      OtherNamesLackTop(e);
    }
  }

  /** The top regions' names contain `top`. */
  lemma TopNamesContain(e: Edge)
    requires HasTop(e)
    ensures Contains(EdgeName(e), "top")
  {
    match e
    case TopLeft => ContainsAt("top_left", "top", 0);
    case TopRight => ContainsAt("top_right", "top", 0);
    case Top => ContainsAt("top", "top", 0);
  }

  /** The other names lack the letter `p`. */
  lemma OtherNamesLackTop(e: Edge)
    requires !HasTop(e)
    ensures !Contains(EdgeName(e), "top")
  {
    match e
    case BottomLeft => NotContainsChar("bottom_left", "top", 2);
    case BottomRight => NotContainsChar("bottom_right", "top", 2);
    case Bottom => NotContainsChar("bottom", "top", 2);
    case Left => NotContainsChar("left", "top", 2);
    case Right => NotContainsChar("right", "top", 2);
  }

  lemma EdgeBottom(e: Edge)
    ensures Contains(EdgeName(e), "bottom") <==> HasBottom(e)
  {
    if HasBottom(e) {
      BottomNamesContain(e);
    } else {
      OtherNamesLackBottom(e);
    }
  }

  /** The bottom regions' names contain `bottom`. */
  lemma BottomNamesContain(e: Edge)
    requires HasBottom(e)
    ensures Contains(EdgeName(e), "bottom")
  {
    match e
    case BottomLeft => ContainsAt("bottom_left", "bottom", 0);
    case BottomRight => ContainsAt("bottom_right", "bottom", 0);
    case Bottom => ContainsAt("bottom", "bottom", 0);
  }

  /** The other names lack the letter `b`. */
  lemma OtherNamesLackBottom(e: Edge)
    requires !HasBottom(e)
    ensures !Contains(EdgeName(e), "bottom")
  {
    match e
    case TopLeft => NotContainsChar("top_left", "bottom", 0);
    case TopRight => NotContainsChar("top_right", "bottom", 0);
    case Top => NotContainsChar("top", "bottom", 0);
    case Left => NotContainsChar("left", "bottom", 0);
    case Right => NotContainsChar("right", "bottom", 0);
  }

  /** An occurrence at position `i` is an occurrence. */
  lemma {:induction false} ContainsAt(s: string, t: string, i: nat)
    requires i + |t| <= |s| && s[i..i + |t|] == t
    ensures Contains(s, t)
    decreases i
  {
    if i == 0 {
      assert s[..|t|] == t;
    } else {
      assert s[1..][i - 1..i - 1 + |t|] == s[i..i + |t|];
      ContainsAt(s[1..], t, i - 1);
    }
  }

  /** No occurrence of `t` in a text that lacks one of its characters. */
  lemma {:induction false} NotContainsChar(s: string, t: string, j: nat)
    requires j < |t| && t[j] !in s
    ensures !Contains(s, t)
    decreases |s|
  {
    if |s| > 0 {
      if |t| <= |s| {
        assert s[..|t|][j] == s[j];
      }
      NotContainsChar(s[1..], t, j);
    }
  }

  /**
   * `_get_edge_at`: the region of a point given in window coordinates, for a
   * window `width` by `height` and the resize margin. Corners come first;
   * when the window is narrower than two margins a point can be both left
   * and right, and the left variants win; likewise top wins over bottom.
   */
  function EdgeAt(pos: Point, width: int, height: int, margin: int): (e: Option<Edge>)
    ensures e == None <==> margin <= pos.x <= width - margin && margin <= pos.y <= height - margin
    ensures e.Some? ==> (HasTop(e.value) <==> pos.y < margin)
    ensures e.Some? ==> (HasBottom(e.value) <==> !(pos.y < margin) && pos.y > height - margin)
    ensures e.Some? ==> (HasLeft(e.value) <==> pos.x < margin)
    ensures e.Some? ==> (HasRight(e.value) <==> !(pos.x < margin) && pos.x > width - margin)
  {
    var left := pos.x < margin;
    var right := pos.x > width - margin;
    var top := pos.y < margin;
    var bottom := pos.y > height - margin;
    if top && left then Some(TopLeft)
    else if top && right then Some(TopRight)
    else if bottom && left then Some(BottomLeft)
    else if bottom && right then Some(BottomRight)
    else if top then Some(Top)
    else if bottom then Some(Bottom)
    else if left then Some(Left)
    else if right then Some(Right)
    else None
  }

  datatype Cursor = ArrowCursor | SizeFDiagCursor | SizeBDiagCursor | SizeVerCursor | SizeHorCursor

  /** The `cursors` table of `_update_cursor`. */
  function Cursors(): map<Edge, Cursor> {
    map[TopLeft := SizeFDiagCursor, BottomRight := SizeFDiagCursor,
        TopRight := SizeBDiagCursor, BottomLeft := SizeBDiagCursor,
        Top := SizeVerCursor, Bottom := SizeVerCursor,
        Left := SizeHorCursor, Right := SizeHorCursor]
  }

  /** `cursors.get(edge, Qt.ArrowCursor)`. */
  function CursorFor(edge: Option<Edge>): (c: Cursor)
    ensures c == SizeFDiagCursor <==> edge == Some(TopLeft) || edge == Some(BottomRight)
    ensures c == SizeBDiagCursor <==> edge == Some(TopRight) || edge == Some(BottomLeft)
    ensures c == SizeVerCursor <==> edge == Some(Top) || edge == Some(Bottom)
    ensures c == SizeHorCursor <==> edge == Some(Left) || edge == Some(Right)
    ensures c == ArrowCursor <==> edge == None
  {
    CursorKeys();
    if edge.Some? && edge.value in Cursors() then Cursors()[edge.value] else ArrowCursor
  }

  lemma CursorKeys()
    ensures forall e: Edge :: e in Cursors()
  {
    forall e: Edge
      ensures e in Cursors()
    {
      match e
      case TopLeft =>
      case TopRight =>
      case BottomLeft =>
      case BottomRight =>
      case Top =>
      case Bottom =>
      case Left =>
      case Right =>
    }
  }

  /**
   * The geometry `_resize_window` sets for a drag of `d` on `edge`: the
   * horizontal update (left, then right) and the vertical one (top, then
   * bottom), each applied only when the new size exceeds the minimum. The
   * tests `'left' in edge` and so on are the side predicates (EdgeSides).
   */
  function ResizedGeometry(g: Rect, edge: Edge, d: Point, minWidth: int, minHeight: int): (r: Rect)
    ensures HasLeft(edge) && g.w - d.x > minWidth ==> r.x == g.x + d.x && r.w == g.w - d.x
    ensures HasLeft(edge) ==> r.x + r.w == g.x + g.w
    ensures HasRight(edge) && g.w + d.x > minWidth ==> r.x == g.x && r.w == g.w + d.x
    ensures HasTop(edge) && g.h - d.y > minHeight ==> r.y == g.y + d.y && r.h == g.h - d.y
    ensures HasTop(edge) ==> r.y + r.h == g.y + g.h
    ensures HasBottom(edge) && g.h + d.y > minHeight ==> r.y == g.y && r.h == g.h + d.y
    ensures HasLeft(edge) && g.w - d.x <= minWidth ==> r.x == g.x && r.w == g.w
    ensures HasRight(edge) && g.w + d.x <= minWidth ==> r.x == g.x && r.w == g.w
    ensures HasTop(edge) && g.h - d.y <= minHeight ==> r.y == g.y && r.h == g.h
    ensures HasBottom(edge) && g.h + d.y <= minHeight ==> r.y == g.y && r.h == g.h
    ensures (r.x, r.w) != (g.x, g.w) ==> r.w > minWidth
    ensures (r.y, r.h) != (g.y, g.h) ==> r.h > minHeight
    ensures !HasLeft(edge) && !HasRight(edge) ==> r.x == g.x && r.w == g.w
    ensures !HasTop(edge) && !HasBottom(edge) ==> r.y == g.y && r.h == g.h
  {
    var g1 := if HasLeft(edge) && g.w - d.x > minWidth then SetWidth(SetX(g, g.x + d.x), g.w - d.x) else g;
    var g2 := if HasRight(edge) && g1.w + d.x > minWidth then SetWidth(g1, g1.w + d.x) else g1;
    var g3 := if HasTop(edge) && g2.h - d.y > minHeight then SetHeight(SetY(g2, g2.y + d.y), g2.h - d.y) else g2;
    if HasBottom(edge) && g3.h + d.y > minHeight then SetHeight(g3, g3.h + d.y) else g3
  }

  lemma SidesExclusive(e: Edge)
    ensures !(HasLeft(e) && HasRight(e)) && !(HasTop(e) && HasBottom(e))
    ensures HasLeft(e) || HasRight(e) || HasTop(e) || HasBottom(e)
  {
  }

  datatype MouseButton = NoButton | LeftButton | RightButton | MiddleButton

  /** A mouse event: the button, the position in window coordinates and on the screen. */
  datatype MouseEvent = MouseEvent(button: MouseButton, pos: Point, globalPos: Point)

  /** Position of the `QuiltApplication` window, its fixed initial geometry and margin. */
  const InitialGeometry := Rect(100, 100, 800, 600)
  const ResizeMargin := 5

  class Application {
    var geometry: Rect
    var minimumWidth: int
    var minimumHeight: int
    var maximized: bool
    var cursor: Cursor
    var startPos: Option<Point>
    var resizing: bool
    var resizeEdge: Option<Edge>
    const resizeMargin: int

    /** A resize is in progress exactly when an edge is recorded, and it has a start position. */
    ghost predicate Valid()
      reads this
    {
      (resizing <==> resizeEdge.Some?) && (resizing ==> startPos.Some?)
    }

    /** `QuiltApplication()`: the fixed geometry and the idle resize state. */
    constructor (minimumWidth: int, minimumHeight: int)
      ensures Valid()
      ensures geometry == InitialGeometry && resizeMargin == ResizeMargin
      ensures this.minimumWidth == minimumWidth && this.minimumHeight == minimumHeight
      ensures startPos == None && !resizing && resizeEdge == None
      ensures !maximized && cursor == ArrowCursor
    {
      geometry := InitialGeometry;
      this.minimumWidth := minimumWidth;
      this.minimumHeight := minimumHeight;
      maximized := false;
      cursor := ArrowCursor;
      startPos := None;
      resizing := false;
      resizeMargin := ResizeMargin;
      resizeEdge := None;
    }

    /**
     * `_get_edge_at(pos)` against this window's size: no edge in the interior
     * that the margin leaves, and otherwise the sides whose margin band holds
     * the point, top and left winning where the bands overlap.
     */
    function EdgeAtPos(pos: Point): (e: Option<Edge>)
      reads this
      ensures e == None <==>
                resizeMargin <= pos.x <= geometry.w - resizeMargin && resizeMargin <= pos.y <= geometry.h - resizeMargin
      ensures e.Some? ==> (HasTop(e.value) <==> pos.y < resizeMargin)
      ensures e.Some? ==> (HasBottom(e.value) <==> !(pos.y < resizeMargin) && pos.y > geometry.h - resizeMargin)
      ensures e.Some? ==> (HasLeft(e.value) <==> pos.x < resizeMargin)
      ensures e.Some? ==> (HasRight(e.value) <==> !(pos.x < resizeMargin) && pos.x > geometry.w - resizeMargin)
    {
      EdgeAt(pos, geometry.w, geometry.h, resizeMargin)
    }

    /** `_resize_window(global_pos)`: resizes by the movement since the last event and records the new position. */
    method ResizeWindow(globalPos: Point)
      requires Valid() && startPos.Some? && resizeEdge.Some?
      modifies this`geometry, this`startPos
      ensures Valid()
      ensures geometry == ResizedGeometry(old(geometry), resizeEdge.value, Minus(globalPos, old(startPos.value)),
                                          minimumWidth, minimumHeight)
      ensures startPos == Some(globalPos)
    {
      var diff := Minus(globalPos, startPos.value);
      var geom := geometry;
      var edge := resizeEdge.value;

      // `'left' in edge` and the other substring tests, by EdgeSides
      if HasLeft(edge) {
        var newX := geom.x + diff.x;
        var newW := geom.w - diff.x;
        if newW > minimumWidth {
          geom := SetX(geom, newX);
          geom := SetWidth(geom, newW);
        }
      }

      if HasRight(edge) {
        var newW := geom.w + diff.x;
        if newW > minimumWidth {
          geom := SetWidth(geom, newW);
        }
      }

      if HasTop(edge) {
        var newY := geom.y + diff.y;
        var newH := geom.h - diff.y;
        if newH > minimumHeight {
          geom := SetY(geom, newY);
          geom := SetHeight(geom, newH);
        }
      }

      if HasBottom(edge) {
        var newH := geom.h + diff.y;
        if newH > minimumHeight {
          geom := SetHeight(geom, newH);
        }
      }

      geometry := geom;
      startPos := Some(globalPos);
    }

    /** `_update_cursor(edge)`. */
    method UpdateCursor(edge: Option<Edge>)
      requires Valid()
      modifies this`cursor
      ensures Valid()
      ensures cursor == CursorFor(edge)
    {
      cursor := CursorFor(edge);
    }

    /** `mousePressEvent`: a left press starts a resize exactly when it lands in a border region. */
    method MousePress(event: MouseEvent)
      requires Valid()
      modifies this`startPos, this`resizeEdge, this`resizing
      ensures Valid()
      ensures event.button == LeftButton ==>
                && startPos == Some(event.globalPos)
                && resizeEdge == EdgeAtPos(event.pos)
                && (resizing <==> resizeEdge.Some?)
      ensures event.button != LeftButton ==>
                startPos == old(startPos) && resizeEdge == old(resizeEdge) && resizing == old(resizing)
    {
      if event.button == LeftButton {
        startPos := Some(event.globalPos);
        resizeEdge := EdgeAtPos(event.pos);
        resizing := resizeEdge != None;
      }
    }

    /** `mouseReleaseEvent`: any button ends a resize. */
    method MouseRelease(event: MouseEvent)
      modifies this`resizing, this`resizeEdge
      ensures Valid()
      ensures !resizing && resizeEdge == None
    {
      resizing := false;
      resizeEdge := None;
    }

    /** `mouseMoveEvent`: resizes during a resize, and otherwise only updates the cursor. */
    method MouseMove(event: MouseEvent)
      requires Valid()
      modifies this`geometry, this`startPos, this`cursor
      ensures Valid()
      ensures old(resizing) ==>
                && geometry == ResizedGeometry(old(geometry), resizeEdge.value,
                                               Minus(event.globalPos, old(startPos.value)), minimumWidth, minimumHeight)
                && startPos == Some(event.globalPos)
                && cursor == old(cursor)
      ensures !old(resizing) ==>
                && geometry == old(geometry) && startPos == old(startPos)
                && cursor == CursorFor(EdgeAt(event.pos, geometry.w, geometry.h, resizeMargin))
    {
      if resizing && resizeEdge.Some? {
        ResizeWindow(event.globalPos);
      } else {
        var edge := EdgeAtPos(event.pos);
        UpdateCursor(edge);
      }
    }

    /** `showMaximized` and `showNormal`, as far as the maximized flag goes. */
    method SetMaximized(maximize: bool)
      requires Valid()
      modifies this`maximized
      ensures Valid()
      ensures maximized == maximize
    {
      maximized := maximize;
    }
  }

  // ---------------------------------------------------------------------
  // A sequence of resize steps

  /** The geometry after a press at `start` on `edge` and moves to each point of `moves` in turn. */
  function ResizeAll(g: Rect, edge: Edge, start: Point, moves: seq<Point>, minWidth: int, minHeight: int): Rect
    decreases |moves|
  {
    if moves == [] then g
    else
      var last := moves[|moves| - 1];
      var prev := if |moves| == 1 then start else moves[|moves| - 2];
      ResizedGeometry(ResizeAll(g, edge, start, moves[..|moves| - 1], minWidth, minHeight), edge, Minus(last, prev),
                      minWidth, minHeight)
  }

  /**
   * A left press on a border region followed by moves to each point of
   * `moves`: every move is one resize step from the position the previous
   * step recorded, so the window ends at the fold `ResizeAll` of the steps.
   */
  method PressAndResize(app: Application, press: MouseEvent, moves: seq<Point>)
    requires app.Valid() && press.button == LeftButton && app.EdgeAtPos(press.pos).Some?
    modifies app`startPos, app`resizeEdge, app`resizing, app`geometry, app`cursor
    ensures app.Valid() && app.resizing && app.resizeEdge == old(app.EdgeAtPos(press.pos))
    ensures app.geometry == ResizeAll(old(app.geometry), app.resizeEdge.value, press.globalPos, moves,
                                      app.minimumWidth, app.minimumHeight)
    ensures app.startPos == Some(if moves == [] then press.globalPos else moves[|moves| - 1])
  {
    ghost var g0 := app.geometry;
    app.MousePress(press);
    ghost var edge := app.resizeEdge.value;
    for i := 0 to |moves|
      invariant app.Valid() && app.resizing && app.resizeEdge == Some(edge)
      invariant app.startPos == Some(if i == 0 then press.globalPos else moves[i - 1])
      invariant app.geometry == ResizeAll(g0, edge, press.globalPos, moves[..i], app.minimumWidth, app.minimumHeight)
    {
      app.MouseMove(MouseEvent(NoButton, moves[i], moves[i]));
      assert moves[..i + 1][..i] == moves[..i];
    }
    assert moves[..|moves|] == moves;
  }

  /**
   * Because each step records the position it reached, the steps of a drag
   * on the right edge add up: while the width stays above the minimum, it is
   * the initial width plus the total horizontal movement.
   */
  lemma {:induction false} RightResizeTelescopes(g: Rect, start: Point, moves: seq<Point>, minWidth: int, minHeight: int)
    requires forall k :: 0 <= k < |moves| ==> g.w + moves[k].x - start.x > minWidth
    ensures var r := ResizeAll(g, Right, start, moves, minWidth, minHeight);
            r.x == g.x && r.y == g.y && r.h == g.h
            && r.w == g.w + (if moves == [] then 0 else moves[|moves| - 1].x - start.x)
    decreases |moves|
  {
    if moves != [] {
      var init := moves[..|moves| - 1];
      assert forall k :: 0 <= k < |init| ==> init[k] == moves[k];
      RightResizeTelescopes(g, start, init, minWidth, minHeight);
      if |moves| > 1 {
        assert init[|init| - 1] == moves[|moves| - 2];
      }
    }
  }
}
