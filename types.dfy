/**
 * The data shapes the core passes around: the outcome of one compilation and
 * one entry of a project's file tree as the files endpoint returns it.
 */
module Types {
  import opened Text

  /** The result of compiling a project; absent optional fields are `None`. */
  datatype CompilationResult = CompilationResult(
    success: bool,
    pdfPath: Option<string>,
    errors: Option<seq<string>>,
    logs: string)

  /** The `type` tag of a file-tree entry; `Other` stands for any other tag. */
  datatype FileKind = Tex | Bib | Image | Directory | Other

  /**
   * One entry of the file tree: its own name, its path relative to the
   * project directory, its kind and, for a directory, its children.
   * `hasChildren` says whether the entry carries a `children` array at all
   * (a client may receive a directory without one); `children` is empty
   * when it does not.
   */
  datatype FileNode = FileNode(
    name: string,
    path: string,
    kind: FileKind,
    hasChildren: bool,
    children: seq<FileNode>)

  /**
   * `path.join` over segments that hold no `/`, `.` or `..` of their own:
   * the segments separated by `/`.
   */
  function JoinPath(segments: seq<string>): string {
    if segments == [] then ""
    else if |segments| == 1 then segments[0]
    else segments[0] + "/" + JoinPath(segments[1..])
  }
}
