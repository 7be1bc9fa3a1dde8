/**
 * `src/quilt/ui/widgets.py`: the file-tree model of the Qt interface (icons
 * by name, loaded through `load_icon`) and the custom title bar, which drags
 * its frameless window and switches it between maximized and normal.
 */
module UiWidgets {
  import opened Wrappers
  import opened TreeItems
  import opened UiWindows

  /** The name `load_icon` is given for each icon. */
  function IconName(k: IconKind): string {
    match k
    case PdfIcon => "file-pdf"
    case MarkdownIcon => "file-markdown"
    case ImageIcon => "file-image"
    case FolderIcon => "folder"
  }

  /**
   * `QuiltFileSystemModel.data(index, role)`: `Some(name)` for
   * `QIcon(load_icon(name))`, `None` for the base class's answer.
   */
  function FileSystemModelData(role: int, column: int, filePath: string, isDir: bool): (r: Option<string>)
    ensures r == Some("file-pdf") <==> IsIconRequest(role, column) && IsPdf(filePath)
    ensures r == Some("file-markdown") <==> IsIconRequest(role, column) && IsMarkdown(filePath)
    ensures r == Some("file-image") <==> IsIconRequest(role, column) && IsImage(filePath)
    ensures r == Some("folder") <==>
              IsIconRequest(role, column) && isDir && !IsPdf(filePath) && !IsMarkdown(filePath) && !IsImage(filePath)
    ensures r == None <==>
              !IsIconRequest(role, column) || (!isDir && !IsPdf(filePath) && !IsMarkdown(filePath) && !IsImage(filePath))
  {
    match DecorationFor(role, column, filePath, isDir)
    case Icon(k) => Some(IconName(k))
    case BaseData => None
  }

  /** The icon and tool tip of the middle title-bar button. */
  datatype RestoreButton = RestoreButton(icon: string, toolTip: string)

  /** The button as `_init_ui` and `toggle_state` set it up for a window that is, or is not, maximized. */
  function RestoreButtonFor(maximized: bool): (b: RestoreButton)
    ensures b.toolTip == "Restore" <==> maximized
    ensures b.toolTip == "Maximize" <==> !maximized
    ensures b.icon == "frame-corners" <==> maximized
    ensures b.icon == "square" <==> !maximized
  {
    if maximized then RestoreButton("frame-corners", "Restore")
    else RestoreButton("square", "Maximize")
  }

  /** `setFixedHeight(32)`. */
  const TitleBarHeight: int := 32

  /** The position `window().pos()` reports: the top-left corner of the frameless window. */
  function Position(g: Rect): Point {
    Point(g.x, g.y)
  }

  /** `QuiltTitleBar`: its parent window, the drag state, and the restore button. */
  class TitleBar {
    const window: Application
    const title: string
    const height: int
    var startPos: Option<Point>
    var isDragging: bool
    var restoreButton: RestoreButton

    /** A drag in progress has a position to measure the next move from. */
    ghost predicate Valid()
      reads this
    {
      isDragging ==> startPos.Some?
    }

    /** `QuiltTitleBar(parent, title)`, where `title` defaults to `" Quilt"`: the button matches the window's state, and no drag is in progress. */
    constructor (window: Application, title: string)
      ensures Valid()
      ensures this.window == window && this.title == title && height == TitleBarHeight
      ensures restoreButton == RestoreButtonFor(window.maximized)
      ensures startPos == None && !isDragging
    {
      this.window := window;
      this.title := title;
      height := TitleBarHeight;
      restoreButton := RestoreButtonFor(window.maximized);
      startPos := None;
      isDragging := false;
    }

    /** `toggle_state`: flips the maximized state; the button then offers the other action. */
    method ToggleState()
      requires Valid() && window.Valid()
      modifies this`restoreButton, window`maximized
      ensures Valid() && window.Valid()
      ensures window.maximized == !old(window.maximized)
      ensures restoreButton == RestoreButtonFor(window.maximized)
    {
      if window.maximized {
        window.SetMaximized(false);
        restoreButton := RestoreButtonFor(false);
      } else {
        window.SetMaximized(true);
        restoreButton := RestoreButtonFor(true);
      }
    }

    /** `mousePressEvent`: a left press starts a drag at the mouse's global position. */
    method MousePress(event: MouseEvent)
      requires Valid()
      modifies this`startPos, this`isDragging
      ensures Valid()
      ensures event.button == LeftButton ==> startPos == Some(event.globalPos) && isDragging
      ensures event.button != LeftButton ==> startPos == old(startPos) && isDragging == old(isDragging)
    {
      if event.button == LeftButton {
        startPos := Some(event.globalPos);
        isDragging := true;
      }
    }

    /**
     * `mouseMoveEvent`: during a drag, moves the window by the mouse's
     * movement since the last event, so the window keeps its offset from
     * the mouse; otherwise nothing happens.
     */
    method MouseMove(event: MouseEvent)
      requires Valid()
      modifies this`startPos, window`geometry
      ensures Valid()
      ensures old(isDragging) ==>
                && startPos == Some(event.globalPos)
                && window.geometry == MoveTo(old(window.geometry),
                                             Plus(Position(old(window.geometry)), Minus(event.globalPos, old(startPos.value))))
                && Minus(Position(window.geometry), startPos.value)
                   == Minus(Position(old(window.geometry)), old(startPos.value))
      ensures !old(isDragging) ==> startPos == old(startPos) && window.geometry == old(window.geometry)
    {
      if isDragging {
        var currentPos := event.globalPos;
        var offset := Minus(currentPos, startPos.value);
        startPos := Some(currentPos);
        window.geometry := MoveTo(window.geometry, Plus(Position(window.geometry), offset));
      }
    }

    /** `mouseReleaseEvent`: a left release ends the drag. */
    method MouseRelease(event: MouseEvent)
      requires Valid()
      modifies this`isDragging
      ensures Valid()
      ensures isDragging == (old(isDragging) && event.button != LeftButton)
    {
      if event.button == LeftButton {
        isDragging := false;
      }
    }
  }

  /** The window position after a press at `start` and moves to each point of `moves` in turn. */
  function DragAll(pos: Point, start: Point, moves: seq<Point>): Point
    decreases |moves|
  {
    if moves == [] then pos
    else
      var last := moves[|moves| - 1];
      var prev := if |moves| == 1 then start else moves[|moves| - 2];
      Plus(DragAll(pos, start, moves[..|moves| - 1]), Minus(last, prev))
  }

  /**
   * A left press on the title bar followed by moves to each point of
   * `moves`: the window ends at the fold `DragAll` of the steps, which is its
   * initial position plus the mouse's movement from the press to the last
   * move, and keeps its size.
   */
  method PressAndDrag(bar: TitleBar, press: MouseEvent, moves: seq<Point>)
    requires bar.Valid() && press.button == LeftButton
    modifies bar`startPos, bar`isDragging, bar.window`geometry
    ensures bar.Valid() && bar.isDragging
    ensures Position(bar.window.geometry) == DragAll(Position(old(bar.window.geometry)), press.globalPos, moves)
    ensures Position(bar.window.geometry) ==
              if moves == [] then Position(old(bar.window.geometry))
              else Plus(Position(old(bar.window.geometry)), Minus(moves[|moves| - 1], press.globalPos))
    ensures bar.window.geometry.w == old(bar.window.geometry.w) && bar.window.geometry.h == old(bar.window.geometry.h)
  {
    ghost var g0 := bar.window.geometry;
    bar.MousePress(press);
    for i := 0 to |moves|
      invariant bar.Valid() && bar.isDragging
      invariant bar.startPos == Some(if i == 0 then press.globalPos else moves[i - 1])
      invariant Position(bar.window.geometry) == DragAll(Position(g0), press.globalPos, moves[..i])
      invariant bar.window.geometry.w == g0.w && bar.window.geometry.h == g0.h
    {
      bar.MouseMove(MouseEvent(NoButton, moves[i], moves[i]));
      assert moves[..i + 1][..i] == moves[..i];
    }
    assert moves[..|moves|] == moves;
    DragTelescopes(Position(g0), press.globalPos, moves);
  }

  /**
   * The steps of a drag add up: the window ends at its initial position plus
   * the mouse's total movement from the press to the last move.
   */
  lemma {:induction false} DragTelescopes(pos: Point, start: Point, moves: seq<Point>)
    ensures DragAll(pos, start, moves) == if moves == [] then pos else Plus(pos, Minus(moves[|moves| - 1], start))
    decreases |moves|
  {
    if moves != [] {
      var init := moves[..|moves| - 1];
      DragTelescopes(pos, start, init);
      if |moves| > 1 {
        assert init[|init| - 1] == moves[|moves| - 2];
      }
    }
  }
}

/**
 * `src/quilt/widgets.py`: the older file-tree model, which loads each icon
 * from a fixed asset path. Its delegate is `TreeItems.Paint`.
 */
module Widgets {
  import opened Wrappers
  import opened TreeItems

  /** The asset each icon is loaded from. */
  function IconAsset(k: IconKind): string {
    match k
    case PdfIcon => "assets/file-pdf-dark.png"
    case MarkdownIcon => "assets/file-markdown-dark.png"
    case ImageIcon => "assets/image-dark.png"
    case FolderIcon => "assets/folder-dark.png"
  }

  /**
   * `QuiltFileSystemModel.data(index, role)`: `Some(path)` for
   * `QIcon(path)`, `None` for the base class's answer.
   */
  function FileSystemModelData(role: int, column: int, filePath: string, isDir: bool): (r: Option<string>)
    ensures r == Some("assets/file-pdf-dark.png") <==> IsIconRequest(role, column) && IsPdf(filePath)
    ensures r == Some("assets/file-markdown-dark.png") <==> IsIconRequest(role, column) && IsMarkdown(filePath)
    ensures r == Some("assets/image-dark.png") <==> IsIconRequest(role, column) && IsImage(filePath)
    ensures r == Some("assets/folder-dark.png") <==>
              IsIconRequest(role, column) && isDir && !IsPdf(filePath) && !IsMarkdown(filePath) && !IsImage(filePath)
    ensures r == None <==>
              !IsIconRequest(role, column) || (!isDir && !IsPdf(filePath) && !IsMarkdown(filePath) && !IsImage(filePath))
  {
    match DecorationFor(role, column, filePath, isDir)
    case Icon(k) => Some(IconAsset(k))
    case BaseData => None
  }
}
