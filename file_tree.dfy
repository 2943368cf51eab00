/**
 * The file-tree panel: it lists a project's entries, expands and collapses
 * directories, selects files, offers a delete button, and creates new files
 * and directories from a small dialog. The parent's callbacks
 * (`onFileSelect`, `onFileCreate`, `onDirectoryCreate`) are returned as
 * requests instead of being called.
 */
module FileTree {
  import opened Text
  import opened Types

  // ---------------------------------------------------------------------------
  // Pure rules
  // ---------------------------------------------------------------------------

  /** The kind picked in the dialog's selector. */
  datatype NewItemType = NewTex | NewBib | NewDirectory

  /** What creating an item asks of the parent. */
  datatype CreateRequest =
    | CreateDirectory(dirName: string)
    | CreateFile(fileName: string, fileType: NewItemType)

  /** The extension of a new file: `.tex` for a LaTeX file, `.bib` for anything else. */
  function Extension(t: NewItemType): string {
    if t == NewTex then ".tex" else ".bib"
  }

  /** The new file's name: the name as typed, with `ext` appended unless it already ends with it. */
  function WithExtension(name: string, ext: string): (r: string)
    ensures EndsWith(r, ext)
    ensures StartsWith(r, name)
    ensures EndsWith(name, ext) ==> r == name
    ensures !EndsWith(name, ext) ==> |r| == |name| + |ext|
  {
    if EndsWith(name, ext) then name
    else
      var r := name + ext;
      assert r[|r| - |ext|..] == ext;
      assert r[..|name|] == name;
      r
  }

  /** Applying the naming rule to its own result changes nothing. */
  lemma WithExtensionIdempotent(name: string, ext: string)
    ensures WithExtension(WithExtension(name, ext), ext) == WithExtension(name, ext)
  {
  }

  /** The expanded set with `name`'s membership flipped. */
  function Toggled(s: set<string>, name: string): (r: set<string>)
    ensures name in r <==> name !in s
    ensures forall x :: x != name ==> (x in r <==> x in s)
  {
    if name in s then s - {name} else s + {name}
  }

  /** Toggling the same name twice restores the set. */
  lemma ToggleTwice(s: set<string>, name: string)
    ensures Toggled(Toggled(s, name), name) == s
  {
  }

  /** The delete button is shown for an entry that is not a directory and not named `main.tex`. */
  predicate ShowDelete(file: FileNode) {
    file.name != "main.tex" && file.kind != Directory
  }

  /** The icon of an entry; only a directory's icon depends on whether it is expanded. */
  function FileIcon(kind: FileKind, expanded: bool): string {
    match kind
    case Tex => "\U{1F4C4}"
    case Bib => "\U{1F4DA}"
    case Image => "\U{1F5BC}\U{FE0F}"
    case Directory => if expanded then "\U{1F4C2}" else "\U{1F4C1}"
    case Other => "\U{1F4C4}"
  }

  /** One rendered line of the tree. */
  datatype Row = Row(name: string, path: string, icon: string, paddingLeft: nat, selected: bool, deletable: bool)

  /**
   * The line an entry gets at a given depth. Expansion is looked up by name
   * and selection by path.
   */
  function RowOf(f: FileNode, expanded: set<string>, selectedFile: Option<string>, depth: nat): Row {
    Row(f.name, f.path, FileIcon(f.kind, f.name in expanded), 8 + depth * 16, selectedFile == Some(f.path), ShowDelete(f))
  }

  /** A directory shows its children when its name is expanded and it carries them. */
  predicate Opens(f: FileNode, expanded: set<string>) {
    f.kind == Directory && f.name in expanded && f.hasChildren
  }

  /**
   * The rendered lines: each entry, then, for a directory that opens, its
   * children one level deeper.
   */
  function Rows(files: seq<FileNode>, expanded: set<string>, selectedFile: Option<string>, depth: nat): seq<Row>
    decreases files
  {
    if files == [] then []
    else
      [RowOf(files[0], expanded, selectedFile, depth)]
      + (if Opens(files[0], expanded) then Rows(files[0].children, expanded, selectedFile, depth + 1) else [])
      + Rows(files[1..], expanded, selectedFile, depth)
  }

  /** An entry of the tree together with the depth it is shown at. */
  datatype Placed = Placed(entry: FileNode, depth: nat)

  /** The entries on screen, depth first, each with its depth. */
  function Visible(files: seq<FileNode>, expanded: set<string>, depth: nat): seq<Placed>
    decreases files
  {
    if files == [] then []
    else
      [Placed(files[0], depth)]
      + (if Opens(files[0], expanded) then Visible(files[0].children, expanded, depth + 1) else [])
      + Visible(files[1..], expanded, depth)
  }

  /** `rows` are, one for one and in order, the lines of the entries `shown`. */
  predicate LinesOf(rows: seq<Row>, shown: seq<Placed>, expanded: set<string>, selectedFile: Option<string>) {
    |rows| == |shown|
    && forall k :: 0 <= k < |rows| ==> rows[k] == RowOf(shown[k].entry, expanded, selectedFile, shown[k].depth)
  }

  lemma LinesOfAppend(r1: seq<Row>, s1: seq<Placed>, r2: seq<Row>, s2: seq<Placed>,
                      expanded: set<string>, selectedFile: Option<string>)
    requires LinesOf(r1, s1, expanded, selectedFile) && LinesOf(r2, s2, expanded, selectedFile)
    ensures LinesOf(r1 + r2, s1 + s2, expanded, selectedFile)
  {
    forall k | |r1| <= k < |r1| + |r2|
      ensures (r1 + r2)[k] == r2[k - |r1|] && (s1 + s2)[k] == s2[k - |s1|]
    {
    }
  }

  /** Each rendered line is the line of the visible entry at the same position. */
  lemma {:induction false} RowsAreVisible(files: seq<FileNode>, expanded: set<string>, selectedFile: Option<string>, depth: nat)
    ensures LinesOf(Rows(files, expanded, selectedFile, depth), Visible(files, expanded, depth), expanded, selectedFile)
    decreases files
  {
    if files != [] {
      var f := files[0];
      var head := [RowOf(f, expanded, selectedFile, depth)];
      var below := if Opens(f, expanded) then Rows(f.children, expanded, selectedFile, depth + 1) else [];
      var shownBelow := if Opens(f, expanded) then Visible(f.children, expanded, depth + 1) else [];
      if Opens(f, expanded) {
        RowsAreVisible(f.children, expanded, selectedFile, depth + 1);
      }
      RowsAreVisible(files[1..], expanded, selectedFile, depth);
      LinesOfAppend(head, [Placed(f, depth)], below, shownBelow, expanded, selectedFile);
      LinesOfAppend(head + below, [Placed(f, depth)] + shownBelow,
                    Rows(files[1..], expanded, selectedFile, depth), Visible(files[1..], expanded, depth),
                    expanded, selectedFile);
    }
  }

  /**
   * A line carries a delete button exactly when its entry is not a directory
   * and is not named `main.tex`, at any depth: in particular no `main.tex`
   * line anywhere in the tree can be deleted from the panel.
   */
  lemma DeleteVisibility(files: seq<FileNode>, expanded: set<string>, selectedFile: Option<string>)
    ensures |Rows(files, expanded, selectedFile, 0)| == |Visible(files, expanded, 0)|
    ensures forall k :: 0 <= k < |Rows(files, expanded, selectedFile, 0)| ==>
      (Rows(files, expanded, selectedFile, 0)[k].deletable <==>
       Visible(files, expanded, 0)[k].entry.kind != Directory && Visible(files, expanded, 0)[k].entry.name != "main.tex")
    ensures forall k :: 0 <= k < |Rows(files, expanded, selectedFile, 0)| ==>
      Rows(files, expanded, selectedFile, 0)[k].name == "main.tex" ==> !Rows(files, expanded, selectedFile, 0)[k].deletable
  {
    RowsAreVisible(files, expanded, selectedFile, 0);
  }

  /** Every listed entry gets its own line among the rendered ones. */
  lemma {:induction false} RowsCoverEntries(files: seq<FileNode>, expanded: set<string>, selectedFile: Option<string>, depth: nat)
    ensures |Rows(files, expanded, selectedFile, depth)| >= |files|
    ensures forall k :: 0 <= k < |files| ==> RowOf(files[k], expanded, selectedFile, depth) in Rows(files, expanded, selectedFile, depth)
    decreases files
  {
    if files != [] {
      RowsCoverEntries(files[1..], expanded, selectedFile, depth);
      var f := files[0];
      var below := if Opens(f, expanded) then Rows(f.children, expanded, selectedFile, depth + 1) else [];
      var rest := Rows(files[1..], expanded, selectedFile, depth);
      assert Rows(files, expanded, selectedFile, depth) == [RowOf(f, expanded, selectedFile, depth)] + below + rest;
      forall k | 1 <= k < |files|
        ensures RowOf(files[k], expanded, selectedFile, depth) in Rows(files, expanded, selectedFile, depth)
      {
        assert files[1..][k - 1] == files[k];
        assert RowOf(files[k], expanded, selectedFile, depth) in rest;
      }
    }
  }

  /** With nothing expanded, the rows are exactly the top-level entries, in order, unindented. */
  lemma {:induction false} RowsCollapsed(files: seq<FileNode>, selectedFile: Option<string>, depth: nat)
    ensures |Rows(files, {}, selectedFile, depth)| == |files|
    ensures forall k :: 0 <= k < |files| ==> Rows(files, {}, selectedFile, depth)[k] == RowOf(files[k], {}, selectedFile, depth)
    decreases files
  {
    if files != [] {
      RowsCollapsed(files[1..], selectedFile, depth);
      var rest := Rows(files[1..], {}, selectedFile, depth);
      assert Rows(files, {}, selectedFile, depth) == [RowOf(files[0], {}, selectedFile, depth)] + rest;
      forall k | 1 <= k < |files|
        ensures Rows(files, {}, selectedFile, depth)[k] == RowOf(files[k], {}, selectedFile, depth)
      {
        assert files[1..][k - 1] == files[k];
      }
    }
  }

  /**
   * What creating an item with the dialog's `name` and `kind` asks for:
   * nothing when the name trims to nothing, a directory under the trimmed
   * name, or a file under the name as typed with its extension ensured.
   */
  function NewItemRequest(name: string, kind: NewItemType): Option<CreateRequest> {
    if Trim(name) == [] then None
    else if kind == NewDirectory then Some(CreateDirectory(Trim(name)))
    else Some(CreateFile(WithExtension(name, Extension(kind)), kind))
  }

  /**
   * A request is made exactly when the name is not all white space; a
   * directory is named by the trimmed, non-empty name, and a file by the
   * name as typed, ending with the extension of its kind.
   */
  lemma NewItemRequestMeaning(name: string, kind: NewItemType)
    ensures NewItemRequest(name, kind).None? <==> AllSpace(name)
    ensures NewItemRequest(name, kind).Some? && kind == NewDirectory ==>
      && NewItemRequest(name, kind).value == CreateDirectory(Trim(name))
      && NewItemRequest(name, kind).value.dirName != []
    ensures NewItemRequest(name, kind).Some? && kind != NewDirectory ==>
      && NewItemRequest(name, kind).value.CreateFile?
      && NewItemRequest(name, kind).value.fileType == kind
      && EndsWith(NewItemRequest(name, kind).value.fileName, Extension(kind))
      && StartsWith(NewItemRequest(name, kind).value.fileName, name)
      && (EndsWith(name, Extension(kind)) ==> NewItemRequest(name, kind).value.fileName == name)
  {
    TrimEmptyIff(name);
  }

  // ---------------------------------------------------------------------------
  // The component's state
  // ---------------------------------------------------------------------------

  class FileTreeState {
    var showNewDialog: bool
    var newItemName: string
    var newItemType: NewItemType
    var expandedDirs: set<string>

    /** The dialog is closed, the name empty, a LaTeX file selected and nothing expanded. */
    constructor ()
      ensures !showNewDialog && newItemName == "" && newItemType == NewTex && expandedDirs == {}
    {
      showNewDialog := false;
      newItemName := "";
      newItemType := NewTex;
      expandedDirs := {};
    }

    /**
     * `handleCreateItem`. A name that trims to nothing does nothing;
     * otherwise the item is requested and the dialog is reset.
     */
    method HandleCreateItem() returns (request: Option<CreateRequest>)
      modifies this
      ensures request == NewItemRequest(old(newItemName), old(newItemType))
      ensures request.None? ==> showNewDialog == old(showNewDialog) && newItemName == old(newItemName)
      ensures request.Some? ==> newItemName == "" && !showNewDialog
      ensures newItemType == old(newItemType) && expandedDirs == old(expandedDirs)
    {
      request := NewItemRequest(newItemName, newItemType);
      if request.Some? {
        newItemName := "";
        showNewDialog := false;
      }
    }

    /** `toggleDirectory`: flips whether `dirName` is expanded and nothing else. */
    method ToggleDirectory(dirName: string)
      modifies this
      ensures expandedDirs == Toggled(old(expandedDirs), dirName)
      ensures dirName in expandedDirs <==> dirName !in old(expandedDirs)
      ensures showNewDialog == old(showNewDialog) && newItemName == old(newItemName) && newItemType == old(newItemType)
    {
      var newExpanded := expandedDirs;
      if dirName in newExpanded {
        newExpanded := newExpanded - {dirName};
      } else {
        newExpanded := newExpanded + {dirName};
      }
      expandedDirs := newExpanded;
    }

    /**
     * A click on an entry's row: a directory toggles its name (so every
     * directory of that name expands or collapses with it) and selects
     * nothing; any other entry is selected by its path.
     */
    method Click(file: FileNode) returns (selectPath: Option<string>)
      modifies this
      ensures file.kind == Directory ==> selectPath.None? && expandedDirs == Toggled(old(expandedDirs), file.name)
      ensures file.kind != Directory ==> selectPath == Some(file.path) && expandedDirs == old(expandedDirs)
      ensures showNewDialog == old(showNewDialog) && newItemName == old(newItemName) && newItemType == old(newItemType)
    {
      if file.kind == Directory {
        ToggleDirectory(file.name);
        selectPath := None;
      } else {
        selectPath := Some(file.path);
      }
    }
  }
}
