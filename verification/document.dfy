/**
 * The document state kept by the application shell and the handlers that
 * change it (App.tsx:25-31, 68-202; types.ts:11-24).
 *
 * What the handlers learn from the outside world is passed in: the dialog
 * reply, whether a save succeeded, the path the save dialog returned and the
 * file the open dialog read. The editor is represented by the Markdown its
 * body serialises to (absent before the editor exists), and the front-matter
 * library by a codec given as two functions.
 */
module Document {
  import opened Optional
  import opened Settings

  datatype DocumentState = DocumentState(
    filePath: Option<string>,
    savedContent: string,
    isDirty: bool,
    fileName: string,
    printSettings: PrintSettings)

  /** The application's view of one document: its state and the editor body as Markdown. */
  datatype Session = Session(doc: DocumentState, editor: Option<string>)

  datatype FileData = FileData(path: string, content: string)

  /** What the front-matter parser returns: the YAML data and the body after it. */
  datatype Parsed = Parsed(data: Yaml, content: string)

  /** The front-matter library: write a body under YAML data, and split a file into data and body. */
  datatype FrontMatter = FrontMatter(stringify: (string, Yaml) -> string, parse: string -> Parsed)

  /** `DEFAULT_FILE_NAME`, "new document". */
  const DefaultFileName: string := "새 문서"

  /** `DEFAULT_DOC_STATE`: no file, nothing saved, clean, default settings. */
  const DefaultDocState: DocumentState := DocumentState(None, "", false, DefaultFileName, Default)

  /**
   * The default state is a consistent starting point: no file, clean, default
   * settings, the name an empty path gets, and saved content equal to what an
   * empty editor (or none) would write under those settings.
   */
  lemma DefaultDocStateClean(fm: FrontMatter, editor: Option<string>)
    requires editor == None || editor == Some("")
    ensures !HasPath(DefaultDocState.filePath) && !DefaultDocState.isDirty
    ensures IsDefault(DefaultDocState.printSettings)
    ensures DefaultDocState.fileName == FileNameOf("")
    ensures SavedMatches(Session(DefaultDocState, editor), fm)
  {
    FileNameOfDirectory("");
    assert IsDefault(Default);
  }

  /** The replies the unsaved-changes dialog gives. */
  const SaveReply: string := "save"
  const CancelReply: string := "cancel"

  /** JavaScript truthiness of a `string | null`: the empty string counts as no path. */
  predicate HasPath(p: Option<string>)
  {
    p.Some? && p.value != ""
  }

  predicate IsSeparator(c: char)
  {
    c == '/' || c == '\\'
  }

  /** `path.split(/[\\/]/).pop()`: the longest suffix of `path` free of separators. */
  function LastComponent(path: string): (r: string)
    ensures |r| <= |path| && r == path[|path| - |r|..]
    ensures forall i :: 0 <= i < |r| ==> !IsSeparator(r[i])
    ensures |r| < |path| ==> IsSeparator(path[|path| - |r| - 1])
  {
    if |path| == 0 || IsSeparator(path[|path| - 1]) then ""
    else
      var init := path[..|path| - 1];
      var r := LastComponent(init) + [path[|path| - 1]];
      assert path[|path| - |r|..] == init[|init| - |r| + 1..] + [path[|path| - 1]];
      r
  }

  /** The file name shown for a path: its last component, or the default name when that is empty. */
  function FileNameOf(path: string): (name: string)
    ensures name != ""
    ensures forall i :: 0 <= i < |name| ==> !IsSeparator(name[i])
  {
    var last := LastComponent(path);
    if last == "" then DefaultNameClean(); DefaultFileName else last
  }

  /** The default name is a non-empty name free of separators. */
  lemma DefaultNameClean()
    ensures DefaultFileName != ""
    ensures forall i :: 0 <= i < |DefaultFileName| ==> !IsSeparator(DefaultFileName[i])
  {
    var d := DefaultFileName;
    assert |d| == 4;
    assert d[0] == '새' && d[1] == ' ' && d[2] == '문' && d[3] == '서';
  }

  /** The file name of `dir` + separator + `name` is `name`, whatever `dir` holds. */
  lemma FileNameOfJoin(dir: string, sep: char, name: string)
    requires IsSeparator(sep) && name != ""
    requires forall i :: 0 <= i < |name| ==> !IsSeparator(name[i])
    ensures FileNameOf(dir + [sep] + name) == name
  {
    var path := dir + [sep] + name;
    var last := LastComponent(path);
    assert path[|dir|] == sep;
    assert forall i :: |dir| < i < |path| ==> path[i] == name[i - |dir| - 1];
    if |last| > |name| {
      assert false;
    } else if |last| < |name| {
      assert false;
    }
    assert last == path[|path| - |last|..] == name;
  }

  /** A path that ends in a separator, or is empty, shows the default name. */
  lemma FileNameOfDirectory(path: string)
    requires |path| == 0 || IsSeparator(path[|path| - 1])
    ensures FileNameOf(path) == DefaultFileName
  {
  }

  /** `handleEditorUpdate`: an edit marks the document dirty and changes nothing else. */
  function EditorUpdate(s: DocumentState): (r: DocumentState)
    ensures r.isDirty
    ensures r.(isDirty := s.isDirty) == s
  {
    if !s.isDirty then s.(isDirty := true) else s
  }

  /** `handlePrintSettingsChange`: the new settings are kept and the document becomes dirty. */
  function SettingsChange(s: DocumentState, settings: PrintSettings): (r: DocumentState)
    ensures r.printSettings == settings && r.isDirty
    ensures r.(printSettings := s.printSettings, isDirty := s.isDirty) == s
  {
    s.(printSettings := settings, isDirty := true)
  }

  /**
   * `getCurrentContent`: the file text for the editor body and settings. Default
   * settings write the bare Markdown; any other settings go into front matter.
   */
  function CurrentContent(editor: Option<string>, settings: PrintSettings, fm: FrontMatter): (c: string)
    ensures editor.None? ==> c == ""
    ensures editor.Some? && IsDefault(settings) ==> c == editor.value
    ensures editor.Some? && !IsDefault(settings) ==> c == fm.stringify(editor.value, ToYaml(settings))
  {
    match editor
    case None => ""
    case Some(md) => if IsDefault(settings) then md else fm.stringify(md, ToYaml(settings))
  }

  function Content(app: Session, fm: FrontMatter): string
  {
    CurrentContent(app.editor, app.doc.printSettings, fm)
  }

  /**
   * `handleSaveAs`, given the path the dialog returned (`None` when it was
   * cancelled): a non-empty path becomes the document's file, which is then clean.
   */
  function SaveAs(app: Session, fm: FrontMatter, newPath: Option<string>): (r: (Session, bool))
    ensures r.1 <==> HasPath(newPath)
    ensures !r.1 ==> r.0 == app
    ensures r.1 ==> r.0.editor == app.editor && r.0.doc == DocumentState(
      newPath, Content(app, fm), false, FileNameOf(newPath.value), app.doc.printSettings)
  {
    if HasPath(newPath) then
      (app.(doc := app.doc.(filePath := newPath, savedContent := Content(app, fm), isDirty := false,
                            fileName := FileNameOf(newPath.value))), true)
    else (app, false)
  }

  /**
   * `handleSave`: with a file, write to it (`saveOk` is what the write reported);
   * without one, fall back to save-as.
   */
  function Save(app: Session, fm: FrontMatter, saveOk: bool, newPath: Option<string>): (r: (Session, bool))
    ensures !r.1 ==> r.0 == app
    ensures r.1 ==> r.0.editor == app.editor && HasPath(r.0.doc.filePath) && !r.0.doc.isDirty &&
                    r.0.doc.savedContent == Content(app, fm) && r.0.doc.printSettings == app.doc.printSettings
    ensures HasPath(app.doc.filePath) ==> (r.1 <==> saveOk)
    ensures HasPath(app.doc.filePath) ==> r.0.doc.filePath == app.doc.filePath && r.0.doc.fileName == app.doc.fileName
    ensures !HasPath(app.doc.filePath) ==> r == SaveAs(app, fm, newPath)
  {
    if HasPath(app.doc.filePath) then
      if saveOk then (app.(doc := app.doc.(savedContent := Content(app, fm), isDirty := false)), true)
      else (app, false)
    else SaveAs(app, fm, newPath)
  }

  /**
   * `handleUnsavedCheck`: a clean document passes; otherwise the dialog decides:
   * cancel stops, save passes only if the save succeeds, and any other reply
   * discards the changes and passes.
   */
  function UnsavedCheck(app: Session, fm: FrontMatter, reply: string, saveOk: bool, newPath: Option<string>): (r: (Session, bool))
    ensures !r.1 ==> r.0 == app
    ensures !app.doc.isDirty ==> r == (app, true)
    ensures r.1 && r.0 != app ==> reply == SaveReply && !r.0.doc.isDirty
    ensures app.doc.isDirty && reply == CancelReply ==> !r.1
    ensures app.doc.isDirty && reply == SaveReply ==> r == Save(app, fm, saveOk, newPath)
    ensures app.doc.isDirty && reply != SaveReply && reply != CancelReply ==> r == (app, true)
  {
    if !app.doc.isDirty then (app, true)
    else if reply == CancelReply then (app, false)
    else if reply == SaveReply then Save(app, fm, saveOk, newPath)
    else (app, true)
  }

  /** `handleNew`: after a passed check, an empty editor and the default state. */
  function New(app: Session, fm: FrontMatter, reply: string, saveOk: bool, newPath: Option<string>): (r: Session)
    ensures !UnsavedCheck(app, fm, reply, saveOk, newPath).1 ==> r == app
    ensures UnsavedCheck(app, fm, reply, saveOk, newPath).1 ==>
      r.doc == DefaultDocState && (r.editor.Some? <==> app.editor.Some?) && (r.editor.Some? ==> r.editor.value == "")
  {
    var (checked, ok) := UnsavedCheck(app, fm, reply, saveOk, newPath);
    if !ok then checked
    else
      var editor := if checked.editor.Some? then Some("") else None;
      Session(DefaultDocState, editor)
  }

  /**
   * `handleOpen`: after a passed check, and given a file the dialog read and an
   * editor to load it into, the file's front matter sets the print settings
   * (defaults when it has none) and its body goes into the editor.
   */
  function Open(app: Session, fm: FrontMatter, reply: string, saveOk: bool, newPath: Option<string>,
                file: Option<FileData>): (r: Session)
    ensures var checked := UnsavedCheck(app, fm, reply, saveOk, newPath);
      !checked.1 || file.None? || checked.0.editor.None? ==> r == checked.0
    ensures UnsavedCheck(app, fm, reply, saveOk, newPath).1 && file.Some? && app.editor.Some? ==>
      var parsed := fm.parse(file.value.content);
      r.editor == Some(parsed.content) &&
      r.doc.filePath == Some(file.value.path) && r.doc.savedContent == file.value.content && !r.doc.isDirty &&
      r.doc.fileName == FileNameOf(file.value.path) &&
      (|parsed.data| == 0 ==> r.doc.printSettings == Default) &&
      (|parsed.data| > 0 ==> r.doc.printSettings == FromYaml(parsed.data))
  {
    var (checked, ok) := UnsavedCheck(app, fm, reply, saveOk, newPath);
    if !ok || file.None? || checked.editor.None? then checked
    else
      var parsed := fm.parse(file.value.content);
      var settings := if |parsed.data| > 0 then FromYaml(parsed.data) else Default;
      Session(DocumentState(Some(file.value.path), file.value.content, false, FileNameOf(file.value.path), settings),
              Some(parsed.content))
  }

  /** Whether the codec reads back, for this body and these settings, what `CurrentContent` wrote. */
  predicate ReadsBack(fm: FrontMatter, md: string, settings: PrintSettings)
  {
    if IsDefault(settings) then fm.parse(md) == Parsed(map[], md)
    else fm.parse(fm.stringify(md, ToYaml(settings))) == Parsed(ToYaml(settings), md)
  }

  /**
   * Saving and opening again restores the document: when the codec reads back
   * what it wrote, opening the saved text brings back the same body and the same
   * print settings, clean, with the saved text as the saved content.
   */
  lemma SaveThenOpen(app: Session, fm: FrontMatter, path: string, reply: string, saveOk: bool, newPath: Option<string>)
    requires app.editor.Some? && ReadsBack(fm, app.editor.value, app.doc.printSettings)
    requires !app.doc.isDirty
    ensures var text := Content(app, fm);
      var r := Open(app, fm, reply, saveOk, newPath, Some(FileData(path, text)));
      r.editor == app.editor && r.doc.printSettings == app.doc.printSettings &&
      r.doc.savedContent == text && !r.doc.isDirty && r.doc.filePath == Some(path)
  {
    var s := app.doc.printSettings;
    if !IsDefault(s) {
      YamlRoundTrip(s);
      assert HeaderLeftKey in ToYaml(s);
    }
  }

  /** A clean document's saved content is the text saving it now would write. */
  predicate SavedMatches(app: Session, fm: FrontMatter)
  {
    !app.doc.isDirty ==> app.doc.savedContent == Content(app, fm)
  }

  /**
   * Saving, the unsaved-changes check and starting a new document all leave a
   * clean document whose saved content is what it would write; edits and
   * settings changes leave it dirty, so the property holds trivially after them,
   * whatever text the edit left in the editor.
   */
  lemma SavedMatchesKept(app: Session, fm: FrontMatter, reply: string, saveOk: bool, newPath: Option<string>,
                         settings: PrintSettings)
    requires SavedMatches(app, fm)
    ensures SavedMatches(SaveAs(app, fm, newPath).0, fm)
    ensures SavedMatches(Save(app, fm, saveOk, newPath).0, fm)
    ensures SavedMatches(UnsavedCheck(app, fm, reply, saveOk, newPath).0, fm)
    ensures SavedMatches(New(app, fm, reply, saveOk, newPath), fm)
    ensures forall ed :: SavedMatches(Session(EditorUpdate(app.doc), ed), fm)
    ensures SavedMatches(Session(SettingsChange(app.doc, settings), app.editor), fm)
  {
    var (checked, ok) := UnsavedCheck(app, fm, reply, saveOk, newPath);
    if ok {
      assert IsDefault(Default);
    }
  }

  /** An edit after a save makes the document dirty again; a second edit changes nothing more. */
  lemma EditorUpdateIdempotent(s: DocumentState)
    ensures EditorUpdate(EditorUpdate(s)) == EditorUpdate(s)
    ensures EditorUpdate(s) == s <==> s.isDirty
  {
  }
}
