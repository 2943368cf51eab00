/**
 * The text editor pane: a local copy of the file's text, an unsaved-changes
 * flag, save on the button or on Cmd/Ctrl+S, and a label for the file's
 * type. The `content` and `fileName` props are fields the parent sets; the
 * `onChange` and `onSave` callbacks are returned instead of being called.
 */
module FileEditor {
  import opened Text

  datatype FileType = Latex | Bibtex | PlainText

  /** `getFileType`: `.tex` is LaTeX, `.bib` is BibTeX, anything else plain text. */
  function GetFileType(fileName: string): (r: FileType)
    ensures r == Latex <==> EndsWith(fileName, ".tex")
    ensures r == Bibtex <==> EndsWith(fileName, ".bib")
    ensures r == PlainText <==> !EndsWith(fileName, ".tex") && !EndsWith(fileName, ".bib")
  {
    if EndsWith(fileName, ".tex") then
      assert fileName[|fileName| - 1] == ".tex"[3];
      Latex
    else if EndsWith(fileName, ".bib") then Bibtex
    else PlainText
  }

  class EditorState {
    var fileName: string
    var content: string
    var localContent: string
    var hasUnsavedChanges: bool

    /** The flag never reports changes while the text equals the loaded content. */
    predicate Valid()
      reads this
    {
      hasUnsavedChanges ==> localContent != content
    }

    /** The first render: the text is the loaded content and nothing is unsaved. */
    constructor (fileName: string, content: string)
      ensures Valid()
      ensures this.fileName == fileName && this.content == content
      ensures localContent == content && !hasUnsavedChanges
    {
      this.fileName := fileName;
      this.content := content;
      localContent := content;
      hasUnsavedChanges := false;
    }

    /** The Save button is disabled exactly when nothing is unsaved. */
    function SaveDisabled(): (r: bool)
      reads this
      requires Valid()
      ensures !r ==> localContent != content
      ensures r <==> !hasUnsavedChanges
    {
      !hasUnsavedChanges
    }

    /**
     * `handleContentChange`: the text becomes `newContent`, which is passed
     * on to `onChange`, and it is unsaved exactly when it differs from the
     * loaded content; editing back to that content clears the flag.
     */
    method HandleContentChange(newContent: string) returns (changed: string)
      modifies this
      ensures changed == newContent
      ensures localContent == newContent
      ensures hasUnsavedChanges <==> newContent != content
      ensures newContent == content ==> !hasUnsavedChanges
      ensures content == old(content) && fileName == old(fileName)
      ensures Valid()
    {
      localContent := newContent;
      hasUnsavedChanges := newContent != content;
      changed := newContent;
    }

    /** `handleSave`: calls `onSave` and clears the flag; the text is kept. */
    method HandleSave() returns (saveRequested: bool)
      modifies this
      requires Valid()
      ensures saveRequested && !hasUnsavedChanges
      ensures localContent == old(localContent) && content == old(content) && fileName == old(fileName)
      ensures Valid()
    {
      saveRequested := true;
      hasUnsavedChanges := false;
    }

    /**
     * `handleKeyDown`: Cmd+S or Ctrl+S saves (whether or not anything is
     * unsaved); every other key changes nothing.
     */
    method HandleKeyDown(metaKey: bool, ctrlKey: bool, key: string) returns (saveRequested: bool)
      modifies this
      requires Valid()
      ensures saveRequested <==> (metaKey || ctrlKey) && key == "s"
      ensures saveRequested ==> !hasUnsavedChanges
      ensures !saveRequested ==> hasUnsavedChanges == old(hasUnsavedChanges)
      ensures localContent == old(localContent) && content == old(content) && fileName == old(fileName)
      ensures Valid()
    {
      saveRequested := false;
      if (metaKey || ctrlKey) && key == "s" {
        saveRequested := HandleSave();
      }
    }

    /**
     * The parent renders with new props. When `content` or `fileName`
     * changed, the effect resets the text to `content` and clears the flag;
     * otherwise the local state is kept.
     */
    method ReceiveProps(newFileName: string, newContent: string)
      modifies this
      requires Valid()
      ensures fileName == newFileName && content == newContent
      ensures newFileName != old(fileName) || newContent != old(content) ==>
        localContent == newContent && !hasUnsavedChanges
      ensures newFileName == old(fileName) && newContent == old(content) ==>
        localContent == old(localContent) && hasUnsavedChanges == old(hasUnsavedChanges)
      ensures Valid()
    {
      var changed := newFileName != fileName || newContent != content;
      fileName := newFileName;
      content := newContent;
      if changed {
        localContent := content;
        hasUnsavedChanges := false;
      }
    }

    /**
     * An edit in the project page, whose `onChange` handler stores the text
     * as the file's content and passes it back as the `content` prop: the
     * editor ends up holding the new text with nothing marked unsaved, so
     * the unsaved marker is cleared and the Save button disabled after
     * every edit there.
     */
    method EditEchoedByParent(newContent: string)
      modifies this
      requires Valid()
      ensures localContent == newContent && content == newContent && fileName == old(fileName)
      ensures !hasUnsavedChanges && SaveDisabled()
    {
      var changed := HandleContentChange(newContent);
      ReceiveProps(fileName, changed);
    }
  }
}
