# my-overleaf core, modelled in Dafny

my-overleaf is a small local LaTeX editor. Projects are directories under
`papers/`, and the web UI edits their files. A compiler wrapper runs
pdflatex/bibtex, or platex/jbibtex/dvipdfmx for Japanese documents, and
reports the PDF and the error lines of the log. A polling hook notices files
that changed on disk. This project models the deterministic parts of that
system:

- `compiler.dfy` (module `Compiler`): the compile run.
  - It chooses the toolchain and runs the typesetting passes with an optional bibliography pass.
  - On the Japanese toolchain it converts the DVI file and moves the PDF.
  - It falls back to the first pass's output when there is no log.
  - It scans the log for error lines and shapes the `CompilationResult`.
  - Every command and file-system call is an input (`Env`).
  - `Compile` returns the trace of commands it ran together with the result.
- `projects.dfy` (module `ProjectsRoute`): project creation.
  - Name validation and the id sanitiser: trim, lower-case, replace invalid characters, collapse dash runs.
  - The 400/409/500/200 decision over the set of existing ids.
  - The `main.tex` template.
- `file_watcher.dfy` (module `FileWatcher`): change detection by polling.
  - The recursive flattening of the file tree to its `.tex`/`.bib` paths.
  - One poll over those paths, as a class whose timestamp map is updated in place.
- `file_tree.dfy` (module `FileTree`): the file-tree panel.
  - New-item naming and the create dialog.
  - Expand/collapse as set toggling, and click dispatch.
  - Delete-button visibility and the rendered rows.
- `file_editor.dfy` (module `FileEditor`): the editor pane.
  - The unsaved-changes state machine as a class.
  - The file-type classifier.
- `home_page.dfy` (module `HomePage`): the project listing loop of the home page.
- `text.dfy` (module `Text`): the JavaScript string operations used above.
  - `startsWith`, `endsWith`, `includes`, `indexOf`.
  - `replace` with a string pattern, which replaces the first occurrence.
  - `trim` and `split('\n')`.
- `types.dfy` (module `Types`): the data shapes.
  - `CompilationResult`.
  - The file-tree entry.
  - `path.join` over plain segments.

Callbacks such as `onChange`, `onSave`, `onFileSelect`, `onFileCreate` and
`onFileChange` are not called: each method returns what it would pass to
them. Answers from the outside world are parameters:

- HEAD responses and exec outcomes are functions from the call's index.
- Directory listings and the result of reading a file are `Option` values.

The file-tree entry type is imported from `@/types`, but `ProjectFile` is not
part of src/types/index.ts. Its shape (name, path, type, optional children)
follows what the files endpoint returns
(src/app/api/projects/[projectId]/files/route.ts).

## Model

| member | source | states |
|---|---|---|
| Text.IndexOfFirst | src/lib/compiler.ts:38 | `indexOf` finds the first occurrence of the pattern, and reports none only when it occurs nowhere |
| Text.ContainsIff | src/lib/compiler.ts:26 | `includes` holds exactly when the pattern occurs at some index |
| Text.ReplaceFirstMeaning | src/lib/compiler.ts:38 | `replace('.tex', x)` replaces the first occurrence only and leaves the text alone when there is none |
| Text.TrimStart | src/app/api/projects/route.ts:17 | the result is a suffix of the text, and everything cut from the front is white space |
| Text.TrimEnd | src/app/api/projects/route.ts:17 | the result is a prefix of the text, and everything cut from the end is white space |
| Text.Trim | src/app/api/projects/route.ts:17 | the result is a slice with only white space cut from both ends, and it neither starts nor ends with white space |
| Text.TrimEmptyIff | src/app/api/projects/route.ts:9 | trimming leaves nothing exactly when the text is all white space |
| Text.Lines | src/lib/compiler.ts:146 | `split('\n')` yields at least one piece and no piece holds a newline |
| Text.JoinLinesSplit | src/lib/compiler.ts:146 | joining the pieces with `\n` gives the log back |
| Text.LinesCount | src/lib/compiler.ts:146 | there is one more line than there are `\n` characters |
| Compiler.IsErrorLine | src/lib/compiler.ts:150 | a line is an error line when it starts with `!` or contains `Error:` or `error:` |
| Compiler.ErrorLines | src/lib/compiler.ts:144-156 | never more reports than lines |
| Compiler.ErrorLinesComplete | src/lib/compiler.ts:150-152 | a line that starts with `!` or contains `Error:` or `error:` is reported, trimmed |
| Compiler.ErrorLinesSound | src/lib/compiler.ts:150-152 | every report is such a line, trimmed |
| Compiler.ErrorLinesAppend | src/lib/compiler.ts:148-153 | the scan keeps log order: the reports for two consecutive parts are the reports of each part |
| Compiler.ErrorLinesEmptyIff | src/lib/compiler.ts:150 | the error list is empty exactly when no line is an error line |
| Compiler.ErrorLinesStep | src/lib/compiler.ts:148-153 | scanning one more line adds that line's trimmed text exactly when it is an error line |
| Compiler.CheckLine | src/lib/compiler.ts:149-152 | the loop body yields the trimmed line when it is an error line and nothing otherwise |
| Compiler.ParseErrors | src/lib/compiler.ts:144-156 | the loop returns the trimmed error lines of the log, in order |
| Compiler.ErrorCountBound | src/lib/compiler.ts:146-153 | a log yields at most one more error than it has `\n` characters |
| Compiler.IsJapanese | src/lib/compiler.ts:26 | a text is Japanese when it includes `jsreport`, `jsarticle` or `jsbook` |
| Compiler.EngineFor | src/lib/compiler.ts:26-28 | platex for a text that includes `jsreport`, `jsarticle` or `jsbook`, pdflatex otherwise |
| Compiler.EngineForIff | src/lib/compiler.ts:26-28 | the Japanese toolchain is chosen exactly when `jsreport`, `jsarticle` or `jsbook` occurs somewhere in the text |
| Compiler.MainFileOf | src/lib/compiler.ts:16 | the main file defaults to `main.tex` |
| Compiler.Derived | src/lib/compiler.ts:38 | a derived name is the main file with its first `.tex` replaced by the new extension |
| Compiler.DerivedSwapsExtension | src/lib/compiler.ts:53-60 | for a main file `stem.tex` with no other `.tex` in the stem, derived names are `stem` + the new extension |
| Compiler.DerivedUsesFirstOccurrence | src/lib/compiler.ts:38 | the derived name replaces the first `.tex`, not the extension: `a.texb.tex` gives `a.pdfb.tex` |
| Compiler.BibFiles | src/lib/compiler.ts:135-142 | exactly the listed names ending in `.bib`; a failed listing gives none |
| Compiler.EndingWith | src/lib/compiler.ts:138 | the filter keeps a name exactly when it is listed and ends with the extension |
| Compiler.Message | src/lib/compiler.ts:129-130 | the message of a thrown Error, or `Unknown error` for any other thrown value |
| Compiler.Crash | src/lib/compiler.ts:126-131 | a failure gives `success` false, no `pdfPath`, logs the thrown error's message (`Unknown error` for a non-Error), and one error: `Compilation failed: ` followed by that message |
| Compiler.FinalPass | src/lib/compiler.ts:86-103 | the final pass is the second command without a `.bib` entry, the third after a failed bibliography command, the fourth after a successful one |
| Compiler.RunSucceeds | src/lib/compiler.ts:28-103 | a run gets through when the first and final passes exit and, on the Japanese toolchain, dvipdfmx and the move of the PDF succeed |
| Compiler.PassTrace | src/lib/compiler.ts:33-103 | the passes run: first; bibliography and a second pass as the listing and the bibliography outcome allow; final; only the first when it throws |
| Compiler.RunTrace | src/lib/compiler.ts:28-103 | the passes, then on the Japanese toolchain after an unfailed final pass dvipdfmx and, when it exited, the move |
| Compiler.RunFatal | src/lib/compiler.ts:28-103 | what stops the run: the first or final pass, dvipdfmx or the move, whichever throws first |
| Compiler.EveryStepSucceeds | src/lib/compiler.ts:28-103 | when every command exits and the move succeeds, the run finishes on either toolchain |
| Compiler.RunFatalIff | src/lib/compiler.ts:28-103 | a run is stopped exactly when one of its fatal steps throws |
| Compiler.FinishedIff | src/lib/compiler.ts:28-124 | the run's trace ends in its last successful step exactly when nothing was fatal |
| Compiler.RenderPasses | src/lib/compiler.ts:86-103 | the exact trace for each outcome of the first pass, the listing and the bibliography command: first pass; bibliography and a second pass only when a `.bib` is listed, the second only if the bibliography succeeded; final pass. Only the first or final pass is fatal, and `fatal` is what it threw |
| Compiler.ConvertPdf | src/lib/compiler.ts:52-60 | on the Japanese toolchain, dvipdfmx runs right after the final pass and, exactly when it exited, the PDF move follows; `fatal` is what dvipdfmx or the move threw; the order and pass count are kept |
| Compiler.RunCommands | src/lib/compiler.ts:28-60 | the trace is exactly the one the outcomes allow (passes, then dvipdfmx and the move on the Japanese toolchain) and `fatal` the first fatal failure; the run is unfailed exactly when it finished |
| Compiler.Compile | src/lib/compiler.ts:16-133 | nothing runs when mkdir or reading the main file fails, and that failure is the crash reported; otherwise the trace is the one the outcomes allow under the toolchain chosen by the text, and a fatal failure is the crash reported; the run finishes exactly when mkdir, the read and every fatal step succeed; on finishing: logs fall back to the first pass's stdout+stderr, `success` iff the PDF exists and no error line, `pdfPath` iff the PDF exists (under `build/`), `errors` absent iff none |
| ProjectsRoute.LowerChar | src/app/api/projects/route.ts:17 | `toLowerCase` of one code point: an ASCII capital becomes the small letter in the same alphabet position, KELVIN SIGN becomes `k`, capital I with dot above becomes `i` and a combining dot, every other code point is kept |
| ProjectsRoute.ToLower | src/app/api/projects/route.ts:17 | lower-casing never shortens the text |
| ProjectsRoute.ToLowerPointwise | src/app/api/projects/route.ts:17 | without capital I with dot above, lower-casing keeps the length and lowers code point by code point |
| ProjectsRoute.ReplaceInvalid | src/app/api/projects/route.ts:17 | same length, each character outside `a-z0-9-` replaced by `-` and the others kept |
| ProjectsRoute.CollapseDashes | src/app/api/projects/route.ts:17 | no two dashes in a row, first character kept, only characters of the input, never longer |
| ProjectsRoute.CollapseIsFilter | src/app/api/projects/route.ts:17 | collapsing keeps exactly the characters that are not a dash following a dash, in order: each run of dashes becomes one dash |
| ProjectsRoute.CollapseKeepsOthers | src/app/api/projects/route.ts:17 | collapsing removes dashes only: the other characters survive in order |
| ProjectsRoute.CollapseKeepsDash | src/app/api/projects/route.ts:17 | a dash survives collapsing exactly when there was one |
| ProjectsRoute.CollapseIdentity | src/app/api/projects/route.ts:17 | text without a double dash is left unchanged |
| ProjectsRoute.LowerIdentity | src/app/api/projects/route.ts:17 | lower-casing leaves text in `a-z0-9-` unchanged |
| ProjectsRoute.TrimIdentity | src/app/api/projects/route.ts:17 | trimming leaves text in `a-z0-9-` unchanged |
| ProjectsRoute.ProjectId | src/app/api/projects/route.ts:17 | the id is the name trimmed, lower-cased, with characters outside `a-z0-9-` replaced by `-` and dash runs collapsed |
| ProjectsRoute.IdAlphabet | src/app/api/projects/route.ts:17 | an id holds only `a-z`, `0-9` and `-`, never two dashes in a row |
| ProjectsRoute.IdIdempotent | src/app/api/projects/route.ts:17 | sanitising an id gives it back |
| ProjectsRoute.IdNonEmpty | src/app/api/projects/route.ts:9-17 | a name that is not all white space yields a non-empty id |
| ProjectsRoute.IdOfAlnumName | src/app/api/projects/route.ts:17 | a name of ASCII letters and digits keeps its length as an id, each capital replaced by its small letter (`Hello` gives `hello`) |
| ProjectsRoute.Template | src/app/api/projects/route.ts:35-50 | the `main.tex` of a new project: the article preamble, `\title{name}`, author and date, and a document with an Introduction section |
| ProjectsRoute.TemplateTitle | src/app/api/projects/route.ts:35-50 | the template is an article whose `\title{...}` line carries the name as given |
| ProjectsRoute.CreateProject | src/app/api/projects/route.ts:5-66 | unparsable body or non-string name: 500; missing/falsy/blank name: 400; taken id: 409; in none of these cases is anything created. Otherwise the sanitised id directory is created and `main.tex` written with the untrimmed name, answering the id and the name; mkdir/write failures: 500. Only a non-empty fresh id is ever created |
| FileWatcher.Flattened | src/hooks/useFileWatcher.ts:21-31 | the depth-first list of `tex`/`bib` paths, descending into directories that carry children |
| FileWatcher.FlattenedAppend | src/hooks/useFileWatcher.ts:21-31 | flattening is in list order: two parts flatten to the two results, concatenated |
| FileWatcher.FlattenedIsLeaves | src/hooks/useFileWatcher.ts:24-28 | a path comes out exactly when it belongs to a `tex`/`bib` entry reached through directories that carry children; a directory never contributes its own path |
| FileWatcher.FlattenFiles | src/hooks/useFileWatcher.ts:21-31 | the recursive pushing loop computes the depth-first flattening |
| FileWatcher.Truthy | src/hooks/useFileWatcher.ts:49 | a stored time is truthy when present, not 0 and not NaN |
| FileWatcher.Later | src/hooks/useFileWatcher.ts:49 | a time is later than another only when neither is NaN and it is strictly greater |
| FileWatcher.Observe | src/hooks/useFileWatcher.ts:41-55 | notify iff a truthy earlier time exists and the new one is strictly later; a first sighting is silent; a usable header overwrites the time even when smaller; other entries untouched; non-ok or no header changes nothing |
| FileWatcher.PollFrom | src/hooks/useFileWatcher.ts:36-57 | one poll: each path's response in turn is an Observe step, and a rejected request ends the poll |
| FileWatcher.PollKeepsOthers | src/hooks/useFileWatcher.ts:36-57 | a poll removes no entry and never touches paths it did not poll |
| FileWatcher.PollNotifiesInOrder | src/hooks/useFileWatcher.ts:36-52 | the notified paths are a subsequence of the polled paths, in polling order |
| FileWatcher.PollNotifiesOnce | src/hooks/useFileWatcher.ts:36-52 | when the paths are distinct, no path is notified twice in one poll |
| FileWatcher.PollingWatcher.constructor | src/hooks/useFileWatcher.ts:8 | the timestamp map starts empty |
| FileWatcher.PollingWatcher.Record | src/hooks/useFileWatcher.ts:41-55 | one usable response updates the map and reports a change exactly as one step of the poll does |
| FileWatcher.PollingWatcher.CheckFileChanges | src/hooks/useFileWatcher.ts:13-62 | a failed listing changes nothing; otherwise the in-place loop leaves the map and notifications of the poll over the flattened paths, stopping at a rejected request |
| FileTree.Extension | src/components/FileTree.tsx:89 | `.tex` for a LaTeX file, `.bib` for any other file kind |
| FileTree.WithExtension | src/components/FileTree.tsx:89-92 | the file name always ends with the extension, starts with the typed name, and is the typed name when that already ends with it |
| FileTree.WithExtensionIdempotent | src/components/FileTree.tsx:89-92 | re-applying the naming rule changes nothing |
| FileTree.Toggled | src/components/FileTree.tsx:101-109 | exactly the toggled name's membership flips |
| FileTree.ToggleTwice | src/components/FileTree.tsx:101-109 | toggling twice restores the set |
| FileTree.ShowDelete | src/components/FileTree.tsx:61 | an entry has a delete button when it is not a directory and not named `main.tex` |
| FileTree.FileIcon | src/components/FileTree.tsx:28-36 | the icon by entry type; a directory's shows whether it is expanded |
| FileTree.RowOf | src/components/FileTree.tsx:39-72 | an entry's line: its name, path and icon, indentation by depth, selected by path, deletable by the delete rule |
| FileTree.Rows | src/components/FileTree.tsx:38-82 | each entry's line, then the lines of an expanded directory's children one level deeper, then the following entries |
| FileTree.Visible | src/components/FileTree.tsx:75-78 | the entries on screen, depth first, each with its depth |
| FileTree.RowsAreVisible | src/components/FileTree.tsx:38-82 | the rendered lines are, one for one and in order, the lines of the entries on screen at their depths |
| FileTree.DeleteVisibility | src/components/FileTree.tsx:61 | on every rendered line, at any depth, the delete button shows exactly when its entry is not a directory and not named `main.tex`; no `main.tex` line has one |
| FileTree.RowsCoverEntries | src/components/FileTree.tsx:38-82 | every listed entry's own line is among the rendered lines |
| FileTree.RowsCollapsed | src/components/FileTree.tsx:75-78 | with nothing expanded the rows are exactly the top-level entries, in order, at the same indentation |
| FileTree.NewItemRequest | src/components/FileTree.tsx:84-95 | the request made from the dialog's name and kind |
| FileTree.NewItemRequestMeaning | src/components/FileTree.tsx:84-95 | nothing when the name is blank; a directory under the trimmed, non-empty name; a file under the untrimmed name with its extension ensured |
| FileTree.FileTreeState.constructor | src/components/FileTree.tsx:23-26 | dialog closed, empty name, LaTeX kind, nothing expanded |
| FileTree.FileTreeState.HandleCreateItem | src/components/FileTree.tsx:84-99 | a blank name changes nothing; otherwise the request is made, the name reset to empty and the dialog closed |
| FileTree.FileTreeState.ToggleDirectory | src/components/FileTree.tsx:101-109 | the expanded set is toggled at the name and nothing else changes |
| FileTree.FileTreeState.Click | src/components/FileTree.tsx:49-55 | a directory toggles by name (so same-named directories expand together) and selects nothing; any other entry selects its path |
| FileEditor.GetFileType | src/components/FileEditor.tsx:39-43 | `latex` iff the name ends in `.tex`, `bibtex` iff it ends in `.bib`, `text` otherwise |
| FileEditor.EditorState.constructor | src/components/FileEditor.tsx:13-14 | the text is the loaded content and nothing is unsaved |
| FileEditor.EditorState.SaveDisabled | src/components/FileEditor.tsx:60 | the button is disabled iff nothing is unsaved; when enabled the text differs from the loaded content |
| FileEditor.EditorState.HandleContentChange | src/components/FileEditor.tsx:21-25 | the text and the `onChange` value are the new text; unsaved iff it differs from the loaded content, so editing back clears the flag |
| FileEditor.EditorState.HandleSave | src/components/FileEditor.tsx:27-30 | `onSave` is called and the flag cleared; the text is kept |
| FileEditor.EditorState.HandleKeyDown | src/components/FileEditor.tsx:32-37 | Cmd/Ctrl+S saves even when nothing is unsaved; other keys change nothing |
| FileEditor.EditorState.ReceiveProps | src/components/FileEditor.tsx:16-19 | new `content` or `fileName` resets the text to `content` and clears the flag; unchanged props keep the state |
| FileEditor.EditorState.EditEchoedByParent | src/components/FileEditor.tsx:16-25 | in the project page, where `onChange` feeds the text back as `content`, every edit leaves nothing marked unsaved and the Save button disabled |
| HomePage.FindMainFile | src/app/page.tsx:17 | the main file always ends with `.tex` and is a listed name or `main.tex` |
| HomePage.FindMainFileFirst | src/app/page.tsx:17 | it is the first `.tex` name in listing order, and `main.tex` exactly when there is none |
| HomePage.Summaries | src/app/page.tsx:13-26 | one project per directory entry, or a failure when reading a directory fails |
| HomePage.SummariesFailIff | src/app/page.tsx:13-32 | the listing fails exactly when reading some directory entry fails |
| HomePage.SummariesShape | src/app/page.tsx:13-25 | one project per directory entry, in order, with id and name the directory's name, its path, and a `.tex` main file |
| HomePage.GetProjects | src/app/page.tsx:5-33 | the loop returns the listing; any failure (mkdir, listing, a directory read) returns the empty list |

## Left out

- Running pdflatex, platex, bibtex, jbibtex and dvipdfmx, and the calls `mkdir`, `readFile`, `readdir`, `rename`, `access` and `writeFile`. Their outcomes are inputs, and the shell command strings are not modelled.
- The second pass after a successful bibliography pass: its outcome is not inspected, in the model as in the code.
- `path.join` normalisation (`..`, `.`, repeated `/`): paths are segments joined with `/`.
- `process.cwd()`: the papers directory is a parameter.
- ProjectsRoute.LowerChar: only the code points whose lower case reaches `a-z`/`0-9` are mapped. Every other code point is kept, because any other lower-case form is replaced by `-` anyway. The id is therefore the same, but `ToLower` alone is not JavaScript's full Unicode mapping.
- Strings are sequences of code points, not UTF-16 code units.
- The JSON body is reduced to the shapes of its `name` field. An object key `__proto__` and other JSON details are not modelled.
- The existence check `fs.access` is membership in a set of existing ids; other access errors are not distinguished.
- FileWatcher.Observe: `new Date(header).getTime()` is an input (a number or NaN), not a date parser. An empty `Last-Modified` header counts as absent, as its falsiness implies.
- The 2-second interval, the initial call, `disconnect` and overlapping polls (timers and concurrency).
- Console logging.
- React's batching and scheduling of state updates: each handler's updates are applied at once, in order.
- FileTree: the icon strings of `getFileIcon` are modelled, but no property is stated about them. The `+ New` button and the input/select `onChange` setters are plain assignments and are not modelled.
- src/lib/watcher.ts, the watch and compile routes, PDFViewer, NewProjectModal and ClientHomePage are not part of this model.
