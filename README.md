# Quilt: a verified model of the workspace walker, colour codec, icon theming and window logic

Quilt is a desktop shell for browsing a directory of documents. Almost all of
it is Qt and Tk widget construction. This project models the parts of it
that compute something definite, and proves what they do:

- **Workspace collection** (`src/quilt/workspace.py`). A `Workspace` walks its
  directory top-down, as `os.walk` does. It appends one `WorkspaceFile` for
  every listed name for which `os.path.isfile` holds. Each record keeps
  its path and the basename of that path.
- **Colour codec** (`src/quilt/ui/colors.py`). `hex_to_rgb` and `rgb_to_hex`
  convert between `#rrggbb` strings and integer triples. `COLORS` is the
  palette table.
- **SVG recolouring** (`src/quilt/ui/utils.py`). `modify_svg_colors` makes six
  case-insensitive regular-expression substitutions per spelling of each old
  colour. The same file works out the offsets that centre an icon on a
  padded canvas.
- **File-tree icons and item painting** (`src/quilt/ui/widgets.py`,
  `src/quilt/widgets.py`). A suffix classifier chooses the icon of a path.
  A delegate makes hovered and selected items bold and clears the Selected
  bit before Qt paints them.
- **Frameless window behaviour** (`src/quilt/ui/windows.py`, `src/quilt/ui/widgets.py`).
  This covers the border regions of the main window, the cursor over each,
  the resize state machine driven by press, move and release events, the
  title-bar drag, and the maximize/restore toggle.

The model is written in Dafny:

| file | module | contents |
|---|---|---|
| `wrappers.dfy` | `Wrappers` | `Option` |
| `pytext.dfy` | `PyText` | the few `str` operations used: ASCII `lower`/`upper`, `lstrip`, `startswith`, `endswith`, `in`, the whitespace of `str.isspace` and of `int()`, hexadecimal digits and `int(s, 16)` |
| `posixpath.dfy` | `PosixPath` | `os.path.basename` and two-argument `os.path.join` |
| `workspace.dfy` | `Workspace` | the `Workspace` class over an abstract directory tree |
| `colors.dfy` | `UiColors` | the palette and the codec |
| `svg.dfy` | `UiUtils` | the substitution scanner, `modify_svg_colors`, the centring offsets |
| `treeitems.dfy` | `TreeItems` | the icon classifier and `paint`, which the two widget modules share |
| `widgets.dfy` | `UiWidgets`, `Widgets` | the two `QuiltFileSystemModel.data` overrides and `QuiltTitleBar` |
| `windows.dfy` | `UiWindows` | point and rectangle arithmetic, `QuiltApplication`'s edge, cursor and resize logic |

Where the code changes state, the model does too.
- `Workspace`, `UiWidgets.TitleBar` and `UiWindows.Application` are classes
  whose methods update their fields.
- `get_workspace_files` and `modify_svg_colors` are methods with the
  source's nested loops. Each is proved equal to a specification function:
  `WalkedFiles` and `ApplyMapping`. The two loops of `get_workspace_files`
  form the method `AppendWalkFiles`, which receives the steps `os.walk`
  yields.
- The lemmas are stated about those functions.

The file system is a parameter. It is the tree of entries below the
workspace directory, or `None` when the directory cannot be listed. Every
non-directory entry carries the answer `os.path.isfile` gives for it.

## Model

| member | source | states |
|---|---|---|
| PosixPath.Basename | src/quilt/workspace.py:6 | `os.path.basename`: the text after the last `/` (its properties: BasenameIsLastComponent, BasenameAfterSlash) |
| PosixPath.Join | src/quilt/workspace.py:20 | two-argument `os.path.join`: an absolute second part replaces the first; otherwise a `/` separates them unless the first part is empty or already ends in one (its properties: BasenameOfJoin, JoinExtends) |
| PosixPath.RFind | src/quilt/workspace.py:6 | the index of the last occurrence of a character, or -1: the character is there and does not occur after it |
| PosixPath.BasenameIsLastComponent | src/quilt/workspace.py:6 | `basename(p)` contains no `/`, is a suffix of `p`, and is preceded by a `/` unless it is all of `p` |
| PosixPath.BasenameAfterSlash | src/quilt/workspace.py:20 | the basename of a path ending in `/` followed by a slash-free name is that name |
| PosixPath.BasenameOfJoin | src/quilt/workspace.py:20 | `basename(join(root, name)) == name` for every root and every single-component name |
| Workspace.DirNames | src/quilt/workspace.py:18 | the `dirs` of a walk step (contents: DirNamesListing; order: DirNamesOrder) |
| Workspace.FileEntries | src/quilt/workspace.py:18 | the `files` of a walk step, each with its `isfile` answer (contents: FileEntriesListing; order: FileEntriesOrder) |
| Workspace.DirNamesListing | src/quilt/workspace.py:18 | a step's `dirs` holds a name exactly when a folder of that name is listed |
| Workspace.FileEntriesListing | src/quilt/workspace.py:18-19 | a step's `files` holds an entry exactly when a non-directory of that name is listed, with its `isfile` answer |
| Workspace.DirNamesOrder | src/quilt/workspace.py:18 | `dirs` keeps the listing order: a listing split in two gives the names of the first part followed by those of the second |
| Workspace.FileEntriesOrder | src/quilt/workspace.py:18 | `files` keeps the listing order in the same way |
| Workspace.Walk | src/quilt/workspace.py:18 | `os.walk` starts with the step for the top directory itself, listing its subdirectories and files (where the rest lies: SubwalkAt) |
| Workspace.NewWorkspaceFile | src/quilt/workspace.py:3-6 | `WorkspaceFile(filepath, type)`: the path and its basename (its properties: WorkspaceFileParts, TypeIgnored) |
| Workspace.WorkspaceFileParts | src/quilt/workspace.py:3-6 | a record keeps the path it was given; its `filename` has no `/`, ends the path, and follows a `/` unless it is the whole path |
| Workspace.TypeIgnored | src/quilt/workspace.py:4-6 | the `type` argument has no effect on the record |
| Workspace.StepFiles | src/quilt/workspace.py:19-24 | the records the inner loop appends for one step (one per `isfile` name: StepFilesCount; which ones: StepFilesComplete, StepFilesSound) |
| Workspace.FilesOf | src/quilt/workspace.py:18-24 | the records both loops append for a sequence of steps, step by step (membership: FilesOfMembers; concatenation: FilesOfAppend) |
| Workspace.WalkedFiles | src/quilt/workspace.py:16-24 | what `get_workspace_files` appends (how many: WalkCount; every regular file at any depth: NestedFileCollected) |
| Workspace.StepFilesSnoc | src/quilt/workspace.py:19-24 | one more turn of the inner loop appends a record exactly when `isfile` holds for the name |
| Workspace.FilesOfSnoc | src/quilt/workspace.py:18-24 | one more walk step appends that step's records after the earlier ones |
| Workspace.Workspace.constructor | src/quilt/workspace.py:9-14 | the workspace keeps its directory, is named after the directory's basename, and holds exactly the walked records (the loader runs once, on an empty list) |
| Workspace.Workspace.GetWorkspaceFiles | src/quilt/workspace.py:16-24 | the list becomes its old contents followed by one record per `isfile` name, in walk order; nothing is cleared, so a second call appends the same records again |
| Workspace.Workspace.AppendWalkFiles | src/quilt/workspace.py:18-24 | the two loops append, step by step in walk order and name by name in listing order, one record per `isfile` name to the list as it was |
| Workspace.Workspace.LoadWorkspace | src/quilt/workspace.py:27-28 | loading appends what `get_workspace_files` appends |
| Workspace.StepFilesCount | src/quilt/workspace.py:19-24 | a directory contributes as many records as it lists names for which `isfile` holds |
| Workspace.LocalFilesCount | src/quilt/workspace.py:19-24 | the records of one walk step number the regular files directly in that directory |
| Workspace.WalkCount | src/quilt/workspace.py:16-24 | the walk collects exactly as many records as the tree holds regular files, at any depth |
| Workspace.CountSplit | src/quilt/workspace.py:18-21 | the regular files of a tree are those directly in it plus those in its subdirectories |
| Workspace.FilesOfAppend | src/quilt/workspace.py:18-24 | the records of two runs of walk steps are the records of the first followed by those of the second |
| Workspace.StepFilesComplete | src/quilt/workspace.py:17-24 | no filtering: every listed name for which `isfile` holds yields the record `(join(root, name), name)`, whatever its extension |
| Workspace.StepFilesSound | src/quilt/workspace.py:19-24 | every record comes from a listed name for which `isfile` holds, with path `join(root, name)` and filename `name` |
| Workspace.FilesOfMembers | src/quilt/workspace.py:18-24 | a record is collected exactly when it comes from one of the walk's steps |
| Workspace.TopLevelFileCollected | src/quilt/workspace.py:16-24 | every regular file directly in the workspace directory is in the collected list, named by its own name |
| Workspace.FileEntryNames | src/quilt/workspace.py:19 | every name in a walk step's `files` list is a single path component |
| Workspace.WalkTopDown | src/quilt/workspace.py:18 | the walk has one step per directory; the first is the workspace directory, and every step's root extends the workspace directory's path |
| Workspace.SubdirsAppend | src/quilt/workspace.py:18 | the walks below the folders of a listing split in two are those of the first part followed by those of the second |
| Workspace.SubdirsLength | src/quilt/workspace.py:18 | the walks below a listing's folders yield one step per folder, at any depth |
| Workspace.SubdirsBlock | src/quilt/workspace.py:18 | the walk below a listed folder is the contiguous block that follows the walks of the folders listed before it |
| Workspace.SubwalkAt | src/quilt/workspace.py:18 | top-down order: a subfolder's walk is one contiguous block of its parent's walk that starts with the subfolder's own step and comes after the parent's step and the blocks of the folders listed before it, so every directory is yielded before everything below it |
| Workspace.StepInWalk | src/quilt/workspace.py:18 | for every path of folders through the tree, the walk has a step for the folder it leads to, rooted at the folder names joined one by one onto the top and listing that folder |
| Workspace.StepFileCollected | src/quilt/workspace.py:19-24 | a regular file listed in any step of the walk is collected, with path `join(root, name)` and filename `name` |
| Workspace.NestedFileCollected | src/quilt/workspace.py:16-24 | every regular file at any depth is collected as `WorkspaceFile(join(…join(join(directory, d1), d2)…, name), name)`, where `d1, d2, …` are the folders above it |
| Workspace.JoinExtends | src/quilt/workspace.py:20 | `join(root, name)` starts with `root` |
| UiColors.DictOf | src/quilt/ui/colors.py:24-47 | a dictionary literal has a key for every entry, and every key maps to the value of one of the entries |
| UiColors.DictOfLastWins | src/quilt/ui/colors.py:24-47 | an entry whose key no later entry repeats gives that key its value, as a dictionary literal does |
| UiColors.ColorTable | src/quilt/ui/colors.py:1-47 | the 22 entries of the `COLORS` literal in order, with the colour constants (their form: TableWellFormed; the dictionary: Colors) |
| UiColors.TableWellFormed | src/quilt/ui/colors.py:1-47 | every palette value is `#` followed by six lower-case hexadecimal digits |
| UiColors.Colors | src/quilt/ui/colors.py:24-47 | every `COLORS` value is `#` plus six lower-case hexadecimal digits; `dark-gray` and `light-gray` are keys with their colours |
| UiColors.GrayEntries | src/quilt/ui/colors.py:45-46 | `dark-gray` and `light-gray` are keys of the dictionary built from the table, with their colours |
| UiColors.ParseHex | src/quilt/ui/colors.py:52 | `int(chunk, 16)` for a chunk of at most two characters: two hexadecimal digits give their value, and every result is above -16 and below 256 (all chunks: ParseHexIsInt) |
| UiColors.ParseHexIsInt | src/quilt/ui/colors.py:52 | every chunk of at most two characters is read as `int(chunk, 16)` reads it: the whitespace `int()` skips on either side, an optional sign, then one or two digits; anything else, such as a chunk padded with `\x1c`, is the `ValueError` |
| UiColors.ShortInt | src/quilt/ui/colors.py:52 | what stripping `int()`'s whitespace leaves of a chunk of one or two characters, and the values of one and two digits |
| UiColors.HexToRgb | src/quilt/ui/colors.py:49-52 | after every leading `#` is stripped, six hexadecimal digits give the triple of their three digit pairs, each in 0..255; fewer than five characters give an error (all inputs: HexToRgbIsInt) |
| UiColors.HexToRgbIsInt | src/quilt/ui/colors.py:49-52 | for every input, a triple exactly when `int(t[0:2], 16)`, `int(t[2:4], 16)` and `int(t[4:6], 16)` of the stripped string `t` all succeed, with the values they give; an error otherwise |
| UiColors.SeparatorPaddingRejected | src/quilt/ui/colors.py:52 | `#\x1c1\x1c2\x1c3` is an error: `str.isspace` holds for `\x1c`, but `int()` does not skip it |
| UiColors.LeadingHashes | src/quilt/ui/colors.py:51 | any number of leading `#` are stripped: one more changes nothing |
| UiColors.TrailingIgnored | src/quilt/ui/colors.py:52 | characters after the sixth one past the `#`s are never read |
| UiColors.ToHex | src/quilt/ui/colors.py:56 | the lower-case hexadecimal digits of a number, never empty (what they mean: ToHexDigits) |
| UiColors.Format02x | src/quilt/ui/colors.py:56 | `f'{c:02x}'`: zero-padded to two digits, a minus sign for negative values (for a byte: FormatByte, ByteDigits) |
| UiColors.ToHexDigits | src/quilt/ui/colors.py:56 | the digits written for a number are lower case, read back as the number, and start with `0` only for zero itself |
| UiColors.RgbToHex | src/quilt/ui/colors.py:54-56 | for components in 0..255 the result is `#` plus six lower-case digits, two per component, whose values are the components |
| UiColors.ByteDigits | src/quilt/ui/colors.py:56 | the two digits written for a byte read back as that byte |
| UiColors.FormatByte | src/quilt/ui/colors.py:56 | `f'{c:02x}'` writes a byte as exactly two digits, high nibble first |
| UiColors.RoundTripFromRgb | src/quilt/ui/colors.py:49-56 | `hex_to_rgb(rgb_to_hex(t)) == t` for every triple of components in 0..255 |
| UiColors.ByteRoundTrip | src/quilt/ui/colors.py:52-56 | two digits read as a component are written back as the same digits in lower case |
| UiColors.DecodeHexColor | src/quilt/ui/colors.py:49-52 | `#` plus six hexadecimal digits decodes to the values of its three digit pairs |
| UiColors.EncodeDigits | src/quilt/ui/colors.py:54-56 | a triple read from three digit pairs is written back as `#` and those digits in lower case |
| UiColors.RoundTripFromString | src/quilt/ui/colors.py:49-56 | `rgb_to_hex(hex_to_rgb(s))` is the lower-case form of `s` for every `#` plus six hexadecimal digits |
| UiColors.PaletteRoundTrip | src/quilt/ui/colors.py:24-56 | every `COLORS` value decodes, and encodes back to itself |
| UiColors.LowerHexIsHex | src/quilt/ui/colors.py:54-56 | a colour in the form `rgb_to_hex` writes is one `hex_to_rgb` reads, and already lower case |
| UiUtils.CurrentColor | src/quilt/ui/utils.py:13-14 | the lookup `COLORS['dark-gray']` succeeds and gives the dark grey `#454545`, a well-formed colour |
| UiUtils.SkipSpace | src/quilt/ui/utils.py:31 | each `\s*` takes the whole run of whitespace at its position, and stops at a character that is not whitespace |
| UiUtils.MatchLen | src/quilt/ui/utils.py:30-69 | a match at the start of the text is longer than its keyword and lies within the text (what a match is: MatchShape) |
| UiUtils.Patterns | src/quilt/ui/utils.py:21-26 | the four spellings of an old colour: lower, upper, and both without the leading `#` (case does not matter: LowerUpperAgree, OldColorCaseIrrelevant) |
| UiUtils.Rewrites | src/quilt/ui/utils.py:28-69 | each pattern spelling gets six substitutions, every one keyed on `fill` or `stroke` |
| UiUtils.ModifySvgColors | src/quilt/ui/utils.py:16-71 | the nested loops apply the mapping's entries in iteration order, each through its four spellings and six substitutions, to the previous output; an empty mapping returns the input unchanged |
| UiUtils.ApplyEntry | src/quilt/ui/utils.py:19-69 | what one `old_color: new_color` entry does: its four spellings, six substitutions each (case of the old colour: OldColorCaseIrrelevant) |
| UiUtils.ApplyMapping | src/quilt/ui/utils.py:16-71 | the entries applied in iteration order, each to the previous output (computed by: ModifySvgColors; order: MappingSequential; texts left alone: UnchangedWithoutKeywords) |
| UiUtils.TargetMappingLiteral | src/quilt/ui/utils.py:95-97 | the one call, with the mapping `{"#d9d9d9": target_color}` and a colour from `COLORS`, meets the method's precondition |
| UiUtils.SubAllSix | src/quilt/ui/utils.py:30-69 | the six substitutions of one pattern are applied in the source's order, each to the previous result |
| UiUtils.Sub | src/quilt/ui/utils.py:30-69 | `re.sub` with `re.IGNORECASE` for one rule (what a match is: MatchShape, QuotedMatch, UnquotedMatch; scanning: SubAfterMatch, UnanchoredKeyword) |
| UiUtils.SkipTo | src/quilt/ui/utils.py:31 | a run of whitespace up to a non-space character is skipped exactly |
| UiUtils.QuotedMatch | src/quilt/ui/utils.py:30-55 | `keyword \s* = \s* quote value quote` matches from the keyword to the closing quote |
| UiUtils.UnquotedMatch | src/quilt/ui/utils.py:58-69 | `keyword \s* : \s* value` matches from the keyword to the end of the value |
| UiUtils.MatchShape | src/quilt/ui/utils.py:30-69 | conversely, every match is the keyword, whitespace, the separator, whitespace and the literal, between quotes for an attribute rule, and ends at the closing quote or at the end of the literal |
| UiUtils.UnquotedAttributeKept | src/quilt/ui/utils.py:30-55 | text with no quote character, such as the unquoted `fill=#d9d9d9`, passes an attribute substitution unchanged |
| UiUtils.SubAfterMatch | src/quilt/ui/utils.py:30-35 | a match at the start is replaced and the scan resumes after it, with no overlap |
| UiUtils.AttributeRewritten | src/quilt/ui/utils.py:30-55 | a quoted `fill`/`stroke` attribute, either quote kind, any spacing around `=`, any letter case, is replaced by `keyword="<new>"` and the scan continues after the closing quote |
| UiUtils.StyleRewritten | src/quilt/ui/utils.py:58-69 | a style declaration is replaced up to the end of the old value only, so what follows (`ff` in `fill:#d9d9d9ff`) stays |
| UiUtils.UnanchoredKeyword | src/quilt/ui/utils.py:30-69 | the keyword is not anchored: a character that cannot start it is copied, and the match after it is still made |
| UiUtils.SubWithoutKeyword | src/quilt/ui/utils.py:30-69 | a substitution whose keyword does not occur in the text, in any case, leaves it unchanged |
| UiUtils.UnchangedWithoutKeywords | src/quilt/ui/utils.py:16-71 | text that contains neither `fill` nor `stroke`, in any case, is returned unchanged by every mapping |
| UiUtils.SubAllKeepsText | src/quilt/ui/utils.py:30-69 | substitutions keyed on `fill` and `stroke` leave text without those words unchanged |
| UiUtils.PatternsKeepText | src/quilt/ui/utils.py:28-69 | so do all four spellings of an old colour |
| UiUtils.LowerUpperAgree | src/quilt/ui/utils.py:21-26 | two old colours that agree up to case have the same upper-case, stripped lower-case and stripped upper-case spellings |
| UiUtils.UpperViaLower | src/quilt/ui/utils.py:23 | strings with equal lower-case forms have equal upper-case forms |
| UiUtils.LStripLower | src/quilt/ui/utils.py:24-25 | stripping leading `#` keeps two strings equal up to case |
| UiUtils.OldColorCaseIrrelevant | src/quilt/ui/utils.py:19-34 | the letter case of an old colour does not change the result |
| UiUtils.MappingSequential | src/quilt/ui/utils.py:19-69 | applying a mapping is applying its first entries, then the remaining ones to that output |
| UiUtils.CenterOffset | src/quilt/ui/utils.py:148-149 | `x = (W - w) // 2` satisfies `W - w - 1 <= 2x <= W - w`; when `w <= W`, `x >= 0` and `2x + w` is `W` or `W - 1` |
| UiUtils.PastePosition | src/quilt/ui/utils.py:148-152 | an icon no larger than the canvas is pasted inside it, with the margins on the two sides differing by at most one |
| TreeItems.DecorationFor | src/quilt/ui/widgets.py:91-104 | for the decoration role in column 0: the PDF icon exactly for `.pdf`, markdown exactly for `.md`, the image icon exactly for the image suffixes, the folder icon exactly for directories with none of these suffixes; the base class's answer otherwise |
| TreeItems.SuffixEnds | src/quilt/ui/widgets.py:94-98 | the last characters each recognised suffix fixes |
| TreeItems.SuffixesExclusive | src/quilt/ui/widgets.py:94-98 | no path ends in two of `.pdf`, `.md` and the image suffixes, so the order of the tests decides nothing between them |
| TreeItems.UpperCaseSuffixIgnored | src/quilt/ui/widgets.py:94-104 | matching is case-sensitive: a path ending in `.PDF`, `.MD` or `.PNG` gets only the folder icon (a directory) or the base class's answer |
| TreeItems.SuffixBeatsFolder | src/quilt/ui/widgets.py:94-103 | a directory named with a recognised suffix (`x.md`) gets that suffix's icon, not the folder icon |
| TreeItems.Paint | src/quilt/ui/widgets.py:107-122 | the panel is drawn iff the item is Selected; the copy is bold iff it was already or the Selected or MouseOver bit is set; its Selected bit is clear and every other bit as it was; the delegate of `src/quilt/widgets.py` is the same code |
| UiWidgets.FileSystemModelData | src/quilt/ui/widgets.py:91-104 | `file-pdf`, `file-markdown`, `file-image` and `folder` each returned exactly in its classifier case; the base class's answer otherwise |
| Widgets.IconAsset | src/quilt/widgets.py:6-18 | the asset path of each icon (which icon: FileSystemModelData) |
| Widgets.FileSystemModelData | src/quilt/widgets.py:6-19 | the four asset paths, each returned exactly in its classifier case; the base class's answer otherwise |
| UiWidgets.IconName | src/quilt/ui/widgets.py:91-103 | the name given to `load_icon` for each icon (which icon: FileSystemModelData) |
| UiWidgets.RestoreButtonFor | src/quilt/ui/widgets.py:33-42 | the button says `Restore` with the `frame-corners` icon exactly when the window is maximized, and `Maximize` with `square` exactly when it is not |
| UiWidgets.TitleBar.constructor | src/quilt/ui/widgets.py:8-17 | the bar keeps its window and title, is 32 high, shows the button for the window's current state, and is not dragging |
| UiWidgets.TitleBar.ToggleState | src/quilt/ui/widgets.py:57-65 | the maximized state flips, and the button then names the action available from the new state |
| UiWidgets.TitleBar.MousePress | src/quilt/ui/widgets.py:67-71 | a left press records the global position and starts a drag; other buttons change nothing |
| UiWidgets.TitleBar.MouseMove | src/quilt/ui/widgets.py:73-82 | during a drag the window moves by the mouse's movement since the last event and the new position is recorded, so the window keeps its offset from the mouse; otherwise nothing changes |
| UiWidgets.TitleBar.MouseRelease | src/quilt/ui/widgets.py:84-87 | a left release ends the drag; other buttons leave it as it was |
| UiWidgets.DragTelescopes | src/quilt/ui/widgets.py:73-82 | after a press at `p0` and moves to `p1 … pn`, the window is at its initial position plus `pn - p0` |
| UiWidgets.PressAndDrag | src/quilt/ui/widgets.py:67-82 | a left press and moves through a sequence of points, through the title bar's own handlers: the window ends at the drag fold, which is its initial position plus the mouse's movement from the press to the last move, and keeps its size |
| UiWindows.Minus | src/quilt/ui/windows.py:133 | `QPoint` subtraction undoes addition |
| UiWindows.SetX | src/quilt/ui/windows.py:140 | `setX` moves the left edge and keeps the right edge |
| UiWindows.SetWidth | src/quilt/ui/windows.py:141 | `setWidth` keeps the left edge |
| UiWindows.SetY | src/quilt/ui/windows.py:152 | `setY` moves the top edge and keeps the bottom edge |
| UiWindows.SetHeight | src/quilt/ui/windows.py:153 | `setHeight` keeps the top edge |
| UiWindows.MoveTo | src/quilt/ui/widgets.py:81 | `move` places the frameless window at a new position with the same size |
| UiWindows.EdgeSides | src/quilt/ui/windows.py:136-158 | `'left' in edge` holds exactly for the three left regions, and likewise `right`, `top` and `bottom` (`bottom` contains `to` but not `top`) |
| UiWindows.NotContainsChar | src/quilt/ui/windows.py:136-158 | a word does not occur in a name that lacks one of its letters (`bottom` lacks the `p` of `top`) |
| UiWindows.EdgeLeft | src/quilt/ui/windows.py:136 | `'left' in edge` exactly for the left regions |
| UiWindows.EdgeRight | src/quilt/ui/windows.py:143 | `'right' in edge` exactly for the right regions |
| UiWindows.EdgeTop | src/quilt/ui/windows.py:148 | `'top' in edge` exactly for the top regions |
| UiWindows.EdgeBottom | src/quilt/ui/windows.py:155 | `'bottom' in edge` exactly for the bottom regions |
| UiWindows.EdgeAt | src/quilt/ui/windows.py:104-130 | no region exactly when `margin <= x <= width - margin` and `margin <= y <= height - margin`; otherwise the region is on top iff `y < margin`, on the bottom iff not on top and `y > height - margin`, left iff `x < margin`, right iff not left and `x > width - margin` (corners first, left and top win) |
| UiWindows.Cursors | src/quilt/ui/windows.py:164-173 | the `cursors` dictionary (its keys: CursorKeys; each lookup: CursorFor) |
| UiWindows.CursorFor | src/quilt/ui/windows.py:163-175 | the diagonal corner pairs get the F- and B-diagonal cursors, top and bottom the vertical one, left and right the horizontal one, and no region the arrow, each iff |
| UiWindows.CursorKeys | src/quilt/ui/windows.py:164-173 | the cursor table has an entry for every region |
| UiWindows.ResizedGeometry | src/quilt/ui/windows.py:132-160 | a left drag moves the left edge and keeps the right edge; a right drag moves the right edge; top and bottom likewise; an axis changes only when its new size exceeds the minimum, one whose new size would not exceed it stays as it was, and an axis the edge does not touch stays |
| UiWindows.SidesExclusive | src/quilt/ui/windows.py:114-129 | a region has at most one horizontal and one vertical side, and at least one side |
| UiWindows.Application.constructor | src/quilt/ui/windows.py:13-24 | the window starts at `(100, 100, 800, 600)` with margin 5, not resizing, no start position or edge |
| UiWindows.Application.EdgeAtPos | src/quilt/ui/windows.py:104-130 | no region exactly when the point is at least the margin inside the window's own width and height; otherwise top iff `y` is within the margin of the top, bottom iff not top and within the margin of the window's height, and likewise left and right |
| UiWindows.Application.ResizeWindow | src/quilt/ui/windows.py:132-161 | the geometry becomes the resized geometry for the movement since the last recorded position, and the new position is recorded |
| UiWindows.Application.UpdateCursor | src/quilt/ui/windows.py:163-175 | the cursor becomes the table's cursor for the region |
| UiWindows.Application.MousePress | src/quilt/ui/windows.py:187-195 | a left press records the position and the region under it, and resizing starts iff there is a region; other buttons change nothing |
| UiWindows.Application.MouseRelease | src/quilt/ui/windows.py:197-200 | any release ends resizing and forgets the region |
| UiWindows.Application.MouseMove | src/quilt/ui/windows.py:202-209 | while resizing, a move resizes and keeps the cursor; otherwise it only sets the cursor for the region under the mouse |
| UiWindows.Application.SetMaximized | src/quilt/ui/widgets.py:59-63 | `showMaximized`/`showNormal` set the maximized flag |
| UiWindows.PressAndResize | src/quilt/ui/windows.py:187-209 | a left press on a border region and moves through a sequence of points, through the window's own handlers: the resize stays in progress on the pressed region, and the geometry is the fold of the resize steps, each from the position the previous step recorded |
| UiWindows.RightResizeTelescopes | src/quilt/ui/windows.py:132-161 | because every step records its position, a right-edge drag that stays above the minimum ends with the initial width plus the total horizontal movement |

## Left out

- Tk and Qt I/O: `src/quilt/main.py` (tkinter UI and dialogs), `src/quilt/cli.py` (argument parsing) and `src/quilt/utils.py` (an image wrapper) are not part of this model. They only build windows and read files.
- In `src/quilt/ui/utils.py`, the file caching of `make_target_svg` is left out. So are SVG rasterisation, image compositing, icon and pixmap creation, and stylesheet reading. All are file I/O or foreign libraries. Only the paste position of `svg_to_padded_png_data` is modelled.
- `load_padded_icon` passes five arguments to the four-parameter `svg_to_png_data` (`src/quilt/ui/utils.py:189`), which fails when it is called. That call is not modelled.
- Widget construction, layouts, signals and slots, mouse tracking, `drawPrimitive` and the base-class `paint` are left out. Only their inputs and the flags they receive are modelled.
- Event propagation is not modelled: `event.accept()` and the `super()` handler calls have no effect in the model.
- `_toggle_features_pane` (`src/quilt/ui/windows.py:178-185`) uses attributes `QuiltApplication` never defines. It is not modelled.
- `QuiltWorkspace`, imported at `src/quilt/ui/windows.py:6`, does not exist in `src/quilt/workspace.py`. It is not modelled.
- The file system is an abstract tree. Permissions, symbolic links, concurrent changes and the order in which the operating system lists entries are not modelled: the listing order is the tree's order. Only the workspace directory itself can be unlistable (then `os.walk` yields nothing). A subdirectory that cannot be listed, which `os.walk` skips without a step, cannot be represented: every folder of the tree carries its entries.
- `os.path.isfile` is an answer recorded with each non-directory entry of the tree. The model does not recompute it from the joined path.
- Text is sequences of characters. Case folding and hexadecimal digits cover ASCII only: the non-ASCII letters that `str.lower`, `str.upper` and `re.IGNORECASE` fold are not modelled. `\s` and `str.isspace` use Python's full whitespace set, non-ASCII whitespace included. `int()` skips a narrower set, `PyText.IsIntSpace`, without the ASCII separators `\x1c` to `\x1f`.
- UiColors.ParseHexIsInt: `int()` also reads non-ASCII decimal digits (the full-width `１`, for one) as their values. Digits here are ASCII, so such a chunk is an error in the model.
- Paths follow POSIX `posixpath`: `join` inserts `/` and `basename` splits at the last `/`. On Windows `os.path` is `ntpath`, which joins with `\` and splits at either separator and after a drive letter. That is not modelled.
- Workspace.DirNames: its own contract bounds only the length. Its contents are stated by `Workspace.DirNamesListing` and its order by `Workspace.DirNamesOrder`.
- Workspace.FileEntries: its own contract says only that every non-directory entry is there. That nothing else is there is stated by `Workspace.FileEntriesListing`, and the order by `Workspace.FileEntriesOrder`.
- UiColors.ToHex: its own contract says only that the digits are not empty. What they denote is stated by `UiColors.ToHexDigits`.
- UiColors.RgbToHex: `rgb_to_hex` joins the digits of any iterable of integers. The model takes exactly a three-component `Rgb`, the only shape `hex_to_rgb` produces; the function has no caller in the repository.
- Specification functions without a contract of their own (`PosixPath.Basename`, `PosixPath.Join`, `Workspace.NewWorkspaceFile`, `Workspace.StepFiles`, `Workspace.FilesOf`, `Workspace.WalkedFiles`, `UiColors.ColorTable`, `UiColors.Format02x`, `UiUtils.Patterns`, `UiUtils.Sub`, `UiUtils.ApplyEntry`, `UiUtils.ApplyMapping`, `UiWindows.Cursors`, `UiWidgets.IconName`, `Widgets.IconAsset`): their properties are the lemmas their rows name.
- Workspace.Walk: its own contract fixes only the first step. Where every subfolder's walk lies in it is stated by `Workspace.SubwalkAt`, and that every folder has its step by `Workspace.StepInWalk`.
- `int(chunk, 16)` is modelled only for the chunks of at most two characters that `hex_to_rgb` passes.
- UiWindows.Point, UiWindows.Rect: integers are unbounded, so Qt's 32-bit coordinate overflow is not modelled.
- UiWindows.Application.SetMaximized: only the maximized flag is modelled. The geometry change that `showMaximized` and `showNormal` make is not modelled.
- UiUtils.ModifySvgColors requires every old colour to be read literally inside a regular expression: none of `.^$*+?{}[]\|()` in it. It also requires every new colour to be free of backslashes. Colours with such characters would be read as regex operators or escape sequences, which this scanner does not model.
- UiUtils.Sub models a substitution as a deterministic scanner over the six fixed pattern shapes, not general regular expressions. This is exact for these shapes, because each `\s*` is followed by a character that is not whitespace.
- UiWindows.ResizedGeometry tests the side predicates `HasLeft`, `HasRight`, `HasTop` and `HasBottom` where the source tests substrings of the region's name. `UiWindows.EdgeSides` proves the two tests agree for every region.
- Workspace.Workspace.GetWorkspaceFiles and Workspace.Workspace.AppendWalkFiles have `modifies this` while only `workspaceFiles` changes. `directory` and `name` are constants.
- TreeItems.Paint models only the Selected and MouseOver bits, the bold flag and whether the panel is drawn. The font's other properties and the painter are not modelled.
