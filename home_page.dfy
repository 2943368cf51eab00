/**
 * The home page's project list: every directory under the papers directory
 * is a project, named after the directory, whose main file is the first
 * `.tex` entry it holds (or `main.tex`). Any failure gives an empty list.
 */
module HomePage {
  import opened Text
  import opened Types

  /** An entry of the papers directory. */
  datatype DirEntry = DirEntry(name: string, isDirectory: bool)

  datatype ProjectSummary = ProjectSummary(id: string, name: string, mainFile: string, path: string)

  /** `files.find(f => f.endsWith('.tex')) || 'main.tex'`. */
  function FindMainFile(files: seq<string>): (r: string)
    ensures EndsWith(r, ".tex")
    ensures r in files || r == "main.tex"
  {
    if files == [] then "main.tex"
    else if EndsWith(files[0], ".tex") then files[0]
    else FindMainFile(files[1..])
  }

  /**
   * The main file is the first `.tex` name in listing order, and `main.tex`
   * only when there is none.
   */
  lemma {:induction false} FindMainFileFirst(files: seq<string>)
    ensures (forall j :: 0 <= j < |files| ==> !EndsWith(files[j], ".tex")) ==> FindMainFile(files) == "main.tex"
    ensures (exists i :: 0 <= i < |files| && EndsWith(files[i], ".tex")) ==>
      exists i :: 0 <= i < |files| && files[i] == FindMainFile(files)
                  && forall j :: 0 <= j < i ==> !EndsWith(files[j], ".tex")
  {
    if files != [] && !EndsWith(files[0], ".tex") {
      var r := FindMainFile(files[1..]);
      FindMainFileFirst(files[1..]);
      forall j | 1 <= j < |files| ensures files[j] == files[1..][j - 1] { }
      if exists i :: 0 <= i < |files| && EndsWith(files[i], ".tex") {
        var i :| 0 <= i < |files| && EndsWith(files[i], ".tex");
        assert EndsWith(files[1..][i - 1], ".tex");
        var k :| 0 <= k < |files[1..]| && files[1..][k] == r
          && forall j :: 0 <= j < k ==> !EndsWith(files[1..][j], ".tex");
        assert files[k + 1] == r;
      }
    }
  }

  /** The names of the directory entries, in listing order. */
  function Directories(items: seq<DirEntry>): (r: seq<string>)
    ensures |r| <= |items|
  {
    if items == [] then []
    else (if items[0].isDirectory then [items[0].name] else []) + Directories(items[1..])
  }

  /**
   * The list built from the entries, or `None` when reading one of the
   * directories fails. `readdir(p)` is the listing of the directory at `p`.
   */
  function Summaries(papersDir: string, items: seq<DirEntry>, readdir: string -> Option<seq<string>>): Option<seq<ProjectSummary>> {
    if items == [] then Some([])
    else
      var rest := Summaries(papersDir, items[1..], readdir);
      if !items[0].isDirectory then rest
      else
        var projectPath := JoinPath([papersDir, items[0].name]);
        match readdir(projectPath)
        case None => None
        case Some(files) =>
          if rest.None? then None
          else Some([ProjectSummary(items[0].name, items[0].name, FindMainFile(files), projectPath)] + rest.value)
  }

  /** The listing fails exactly when reading some directory entry fails. */
  lemma {:induction false} SummariesFailIff(papersDir: string, items: seq<DirEntry>, readdir: string -> Option<seq<string>>)
    ensures Summaries(papersDir, items, readdir).None? <==>
      exists i :: 0 <= i < |items| && items[i].isDirectory && readdir(JoinPath([papersDir, items[i].name])).None?
  {
    if items != [] {
      SummariesFailIff(papersDir, items[1..], readdir);
      if exists i :: 0 <= i < |items| && items[i].isDirectory && readdir(JoinPath([papersDir, items[i].name])).None? {
        var i :| 0 <= i < |items| && items[i].isDirectory && readdir(JoinPath([papersDir, items[i].name])).None?;
        if i > 0 {
          assert items[1..][i - 1] == items[i];
        }
      }
      if exists i :: 0 <= i < |items[1..]| && items[1..][i].isDirectory
                     && readdir(JoinPath([papersDir, items[1..][i].name])).None? {
        var i :| 0 <= i < |items[1..]| && items[1..][i].isDirectory
                 && readdir(JoinPath([papersDir, items[1..][i].name])).None?;
        assert items[i + 1] == items[1..][i];
      }
    }
  }

  /** `p` is the project recorded for the directory `dir`. */
  predicate SummaryOf(papersDir: string, p: ProjectSummary, dir: string) {
    p.id == dir && p.name == dir && p.path == JoinPath([papersDir, dir]) && EndsWith(p.mainFile, ".tex")
  }

  /** `ps` holds one recorded project per name of `dirs`, in order. */
  predicate Describes(papersDir: string, ps: seq<ProjectSummary>, dirs: seq<string>) {
    |ps| == |dirs| && forall k :: 0 <= k < |ps| ==> SummaryOf(papersDir, ps[k], dirs[k])
  }

  lemma DescribesCons(papersDir: string, p: ProjectSummary, ps: seq<ProjectSummary>, dir: string, dirs: seq<string>)
    requires SummaryOf(papersDir, p, dir) && Describes(papersDir, ps, dirs)
    ensures Describes(papersDir, [p] + ps, [dir] + dirs)
  {
    forall k | 1 <= k < |ps| + 1
      ensures ([p] + ps)[k] == ps[k - 1] && ([dir] + dirs)[k] == dirs[k - 1]
    {
    }
  }

  /**
   * A successful listing holds one project per directory entry, in order,
   * whose id and name are the directory's name, whose path is that
   * directory's and whose main file is a `.tex` name.
   */
  lemma {:induction false} SummariesShape(papersDir: string, items: seq<DirEntry>, readdir: string -> Option<seq<string>>)
    requires Summaries(papersDir, items, readdir).Some?
    ensures Describes(papersDir, Summaries(papersDir, items, readdir).value, Directories(items))
  {
    if items != [] {
      SummariesShape(papersDir, items[1..], readdir);
      if items[0].isDirectory {
        var rest := Summaries(papersDir, items[1..], readdir).value;
        var ps := Summaries(papersDir, items, readdir).value;
        assert ps == [ps[0]] + rest;
        DescribesCons(papersDir, ps[0], rest, items[0].name, Directories(items[1..]));
      }
    }
  }

  /**
   * `getProjects`: create the papers directory, list it, and for each
   * directory entry list that directory and record a project. A failure of
   * any of these steps gives the empty list.
   */
  method GetProjects(papersDir: string, mkdirOk: bool, listing: Option<seq<DirEntry>>,
                     readdir: string -> Option<seq<string>>)
    returns (projects: seq<ProjectSummary>)
    ensures !mkdirOk || listing.None? ==> projects == []
    ensures mkdirOk && listing.Some? ==>
      projects == match Summaries(papersDir, listing.value, readdir)
                  case None => []
                  case Some(ps) => ps
  {
    if !mkdirOk || listing.None? {
      return [];
    }
    var items := listing.value;
    projects := [];
    var i := 0;
    assert items[0..] == items;
    assert Summaries(papersDir, items, readdir).Some? ==>
      [] + Summaries(papersDir, items, readdir).value == Summaries(papersDir, items, readdir).value;
    while i < |items|
      invariant 0 <= i <= |items|
      invariant Summaries(papersDir, items[i..], readdir).None? ==> Summaries(papersDir, items, readdir).None?
      invariant Summaries(papersDir, items[i..], readdir).Some? ==>
        Summaries(papersDir, items, readdir) == Some(projects + Summaries(papersDir, items[i..], readdir).value)
    {
      var item := items[i];
      assert items[i..][0] == item && items[i..][1..] == items[i + 1..];
      if item.isDirectory {
        var projectPath := JoinPath([papersDir, item.name]);
        var files := readdir(projectPath);
        if files.None? {
          // The catch around the loop discards what was collected.
          projects := [];
          return;
        }
        var mainFile := FindMainFile(files.value);
        ghost var before := projects;
        projects := projects + [ProjectSummary(item.name, item.name, mainFile, projectPath)];
        match Summaries(papersDir, items[i + 1..], readdir)
        case None =>
        case Some(ps) =>
          assert before + ([ProjectSummary(item.name, item.name, mainFile, projectPath)] + ps) == projects + ps;
      }
      i := i + 1;
    }
    assert items[i..] == [];
    assert projects + [] == projects;
  }
}
