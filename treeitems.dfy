/**
 * The two behaviours the file tree adds to Qt's defaults, shared by the
 * `QuiltFileSystemModel` and `QuiltTreeItemDelegate` classes of both widget
 * modules: which icon decorates a path, and how an item's style option is
 * adjusted before it is painted.
 */
module TreeItems {
  import opened PyText

  /** `Qt.DecorationRole`; every other role, the default `Qt.DisplayRole` among them, is some other integer. */
  const DecorationRole: int := 1

  /** The file-type icons, in the order the classifier tries them. */
  datatype IconKind = PdfIcon | MarkdownIcon | ImageIcon | FolderIcon

  /** What `data` answers: one of the icons, or whatever the base class `QFileSystemModel` returns. */
  datatype Decoration = Icon(kind: IconKind) | BaseData

  /** The tuple passed to `file_path.endswith` for images. */
  const ImageSuffixes: seq<string> := [".png", ".jpg", ".jpeg", ".gif"]

  /** `s.endswith(suffixes)` for a tuple: some member of the tuple is a suffix. */
  predicate EndsWithAny(s: string, suffixes: seq<string>) {
    exists i :: 0 <= i < |suffixes| && EndsWith(s, suffixes[i])
  }

  predicate IsPdf(p: string) { EndsWith(p, ".pdf") }
  predicate IsMarkdown(p: string) { EndsWith(p, ".md") }
  predicate IsImage(p: string) { EndsWithAny(p, ImageSuffixes) }

  /** A request the override handles: the decoration of the name column. */
  predicate IsIconRequest(role: int, column: int) {
    role == DecorationRole && column == 0
  }

  /**
   * `QuiltFileSystemModel.data(index, role)`, where `filePath` and `isDir`
   * are what the model reports for `index`. Because the recognised suffixes
   * exclude one another, each file icon is chosen by its own suffix alone,
   * whatever the order of the tests; the folder icon only when no suffix
   * matched.
   */
  function DecorationFor(role: int, column: int, filePath: string, isDir: bool): (d: Decoration)
    ensures d == Icon(PdfIcon) <==> IsIconRequest(role, column) && IsPdf(filePath)
    ensures d == Icon(MarkdownIcon) <==> IsIconRequest(role, column) && IsMarkdown(filePath)
    ensures d == Icon(ImageIcon) <==> IsIconRequest(role, column) && IsImage(filePath)
    ensures d == Icon(FolderIcon) <==>
              IsIconRequest(role, column) && isDir && !IsPdf(filePath) && !IsMarkdown(filePath) && !IsImage(filePath)
    ensures d == BaseData <==>
              !IsIconRequest(role, column) || (!isDir && !IsPdf(filePath) && !IsMarkdown(filePath) && !IsImage(filePath))
  {
    SuffixesExclusive(filePath);
    if IsIconRequest(role, column) then
      if IsPdf(filePath) then Icon(PdfIcon)
      else if IsMarkdown(filePath) then Icon(MarkdownIcon)
      else if IsImage(filePath) then Icon(ImageIcon)
      else if isDir then Icon(FolderIcon)
      else BaseData
    else BaseData
  }

  /** A suffix fixes the characters at the end of the string. */
  lemma EndsWithAt(s: string, t: string, k: int)
    requires EndsWith(s, t) && 0 <= k < |t|
    ensures s[|s| - |t| + k] == t[k]
  {
    assert s[|s| - |t|..][k] == t[k];
  }

  /** The last two characters of each recognised suffix. */
  lemma SuffixEnds(p: string)
    ensures IsPdf(p) ==> p[|p| - 2] == 'd' && p[|p| - 1] == 'f'
    ensures IsMarkdown(p) ==> p[|p| - 2] == 'm' && p[|p| - 1] == 'd'
    ensures IsImage(p) ==> p[|p| - 1] == 'g' || (p[|p| - 2] == 'i' && p[|p| - 1] == 'f')
  {
    if IsPdf(p) {
      EndsWithAt(p, ".pdf", 2);
      EndsWithAt(p, ".pdf", 3);
    }
    if IsMarkdown(p) {
      EndsWithAt(p, ".md", 1);
      EndsWithAt(p, ".md", 2);
    }
    if IsImage(p) {
      var i :| 0 <= i < |ImageSuffixes| && EndsWith(p, ImageSuffixes[i]);
      var t := ImageSuffixes[i];
      EndsWithAt(p, t, |t| - 2);
      EndsWithAt(p, t, |t| - 1);
    }
  }

  /** No path ends in two of the recognised suffix groups. */
  lemma SuffixesExclusive(p: string)
    ensures !(IsPdf(p) && IsMarkdown(p))
    ensures !(IsPdf(p) && IsImage(p))
    ensures !(IsMarkdown(p) && IsImage(p))
  {
    SuffixEnds(p);
  }

  /**
   * Matching is case-sensitive: a path ending in `.PDF`, `.MD` or `.PNG` is
   * treated like any name without a recognised suffix.
   */
  lemma UpperCaseSuffixIgnored(p: string, isDir: bool)
    requires EndsWith(p, ".PDF") || EndsWith(p, ".MD") || EndsWith(p, ".PNG")
    ensures DecorationFor(DecorationRole, 0, p, isDir) == if isDir then Icon(FolderIcon) else BaseData
  {
    var t :| t in [".PDF", ".MD", ".PNG"] && EndsWith(p, t);
    EndsWithAt(p, t, |t| - 1);
    SuffixEnds(p);
  }

  /** A directory whose name carries a recognised suffix gets that suffix's icon, not the folder icon. */
  lemma SuffixBeatsFolder(p: string)
    requires IsPdf(p) || IsMarkdown(p) || IsImage(p)
    ensures DecorationFor(DecorationRole, 0, p, true) != Icon(FolderIcon)
    ensures DecorationFor(DecorationRole, 0, p, true) == DecorationFor(DecorationRole, 0, p, false)
  {
  }

  // ---------------------------------------------------------------------
  // `QuiltTreeItemDelegate.paint`

  /** `QStyle.State_Selected` and `QStyle.State_MouseOver` in Qt's `StateFlag` mask. */
  const StateSelected: bv32 := 0x8000
  const StateMouseOver: bv32 := 0x2000

  /** The parts of a `QStyleOptionViewItem` that `paint` reads or changes. */
  datatype ItemOption = ItemOption(state: bv32, bold: bool)

  /**
   * `paint(painter, option, index)`: returns the option copy handed to the
   * base class, and whether the selection panel is drawn first. The copy is
   * bold when the item is selected or under the mouse (or already was), and
   * its state is the original with the Selected bit cleared and every other
   * bit kept.
   */
  method Paint(option: ItemOption) returns (copy: ItemOption, drawsPanel: bool)
    ensures drawsPanel <==> option.state & StateSelected != 0
    ensures copy.bold <==> option.bold || option.state & StateSelected != 0 || option.state & StateMouseOver != 0
    ensures copy.state & StateSelected == 0
    ensures copy.state & !StateSelected == option.state & !StateSelected
  {
    var state := option.state;
    var bold := option.bold;
    drawsPanel := state & StateSelected != 0;
    if state & StateSelected != 0 || state & StateMouseOver != 0 {
      bold := true;
    }
    state := state & !StateSelected;
    copy := ItemOption(state, bold);
  }
}
