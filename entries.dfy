/**
 * Saving, starting and selecting journal entries (`EntryManager` in
 * entry_manager.py). The manager works on fields of the main window; the
 * class below holds those fields. The encrypted JSON file an entry is
 * written to is modelled by the record it encodes.
 */
module Entries {
  import opened Text
  import opened Clock
  import opened Journal

  const EntryExtension := ".enc"
  const MaxTitleLength := 50

  predicate IsAsciiAlnum(c: char) {
    'a' <= c <= 'z' || 'A' <= c <= 'Z' || '0' <= c <= '9'
  }

  /** The characters the file-name sanitiser lets through. */
  predicate IsTitleChar(c: char) {
    IsAsciiAlnum(c) || c == ' ' || c == '-' || c == '_'
  }

  /** The generator in `save_entry` that keeps allowed characters, in order. */
  function KeepTitleChars(s: string): (r: string)
    ensures forall i :: 0 <= i < |r| ==> IsTitleChar(r[i])
    ensures (forall i :: 0 <= i < |s| ==> IsTitleChar(s[i])) ==> r == s
    decreases |s|
  {
    if s == [] then []
    else
      var t := KeepTitleChars(s[1..]);
      assert s == [s[0]] + s[1..];
      if IsTitleChar(s[0]) then [s[0]] + t else t
  }

  /** The filter works character by character: filtering a concatenation
      filters each part and keeps their order. */
  lemma {:induction false} KeepTitleCharsAppend(s: string, t: string)
    ensures KeepTitleChars(s + t) == KeepTitleChars(s) + KeepTitleChars(t)
    ensures |s| == 1 ==> KeepTitleChars(s) == if IsTitleChar(s[0]) then s else []
    decreases |s|
  {
    if s == [] {
      assert s + t == t;
    } else {
      var u := s + t;
      assert u != [] && u[0] == s[0] && u[1..] == s[1..] + t;
      KeepTitleCharsAppend(s[1..], t);
      var head := if IsTitleChar(s[0]) then [s[0]] else [];
      assert KeepTitleChars(u) == head + KeepTitleChars(u[1..]);
      assert KeepTitleChars(s) == head + KeepTitleChars(s[1..]);
    }
  }

  /** Every allowed character occurs as often after the filter as before. */
  lemma {:induction false} KeepTitleCharsCounts(s: string)
    ensures forall c :: IsTitleChar(c) ==> multiset(KeepTitleChars(s))[c] == multiset(s)[c]
    decreases |s|
  {
    if s != [] {
      KeepTitleCharsCounts(s[1..]);
      assert s == [s[0]] + s[1..];
    }
  }

  /** The file-name stem built from a title: allowed characters only, stripped,
      spaces turned into underscores, at most 50 characters. */
  function SafeTitle(title: string): (r: string)
    ensures |r| <= MaxTitleLength
    ensures forall i :: 0 <= i < |r| ==> IsStemChar(r[i])
  {
    var kept := KeepTitleChars(title);
    var joined := ReplaceAll(Strip(kept), " ", "_");
    StemChars(kept);
    if |joined| <= MaxTitleLength then joined else joined[..MaxTitleLength]
  }

  /** The characters a file-name stem is made of. */
  predicate IsStemChar(c: char) {
    IsAsciiAlnum(c) || c == '-' || c == '_'
  }

  /** Stripping keeps the allowed characters; replacing spaces by underscores
      leaves only stem characters. */
  lemma {:induction false} StemChars(kept: string)
    requires forall i :: 0 <= i < |kept| ==> IsTitleChar(kept[i])
    ensures forall i :: 0 <= i < |ReplaceAll(Strip(kept), " ", "_")| ==> IsStemChar(ReplaceAll(Strip(kept), " ", "_")[i])
  {
    var stripped := Strip(kept);
    StripKeepsCharacters(kept);
    forall i | 0 <= i < |stripped|
      ensures IsTitleChar(stripped[i])
    {
      assert stripped[i] in kept;
    }
    ReplaceCharPointwise(stripped, ' ', '_');
  }

  /** A stem that is already safe is left as it is: the sanitiser is idempotent. */
  lemma {:induction false} SafeTitleIdempotent(title: string)
    ensures SafeTitle(SafeTitle(title)) == SafeTitle(title)
  {
    SafeTitleOfSafe(SafeTitle(title));
  }

  lemma {:induction false} SafeTitleOfSafe(s: string)
    requires |s| <= MaxTitleLength
    requires forall i :: 0 <= i < |s| ==> IsStemChar(s[i])
    ensures SafeTitle(s) == s
  {
    assert forall i :: 0 <= i < |s| ==> IsTitleChar(s[i]);
    var kept := KeepTitleChars(s);
    assert kept == s;
    StripOfStripped(s);
    var stripped := Strip(kept);
    assert stripped == s;
    ReplaceCharPointwise(s, ' ', '_');
    var joined := ReplaceAll(stripped, " ", "_");
    assert joined == s;
  }

  /** `f"{safe_title}_{timestamp}.enc"` with the `%H%M%S` timestamp of `now`. */
  function EntryFileName(safeTitle: string, now: DateTime): (r: string)
    requires Valid(now)
    ensures EndsWith(r, EntryExtension)
    ensures |r| == |safeTitle| + 11 && r[..|safeTitle|] == safeTitle && r[|safeTitle|] == '_'
  {
    var r := safeTitle + "_" + CompactTime(now) + EntryExtension;
    assert r[|r| - 4..] == EntryExtension;
    r
  }

  /** The clock reading can be read back from the timestamp in the name. */
  lemma {:induction false} EntryFileNameTime(safeTitle: string, now: DateTime)
    requires Valid(now)
    ensures var n := EntryFileName(safeTitle, now); var k := |safeTitle| + 1;
            && DecimalValue(n[k..k + 2]) == now.hour
            && DecimalValue(n[k + 2..k + 4]) == now.minute
            && DecimalValue(n[k + 4..k + 6]) == now.second
  {
    var n := EntryFileName(safeTitle, now);
    var k := |safeTitle| + 1;
    var t := CompactTime(now);
    assert n[k..k + 6] == t;
    assert n[k..k + 2] == t[..2] && n[k + 2..k + 4] == t[2..4] && n[k + 4..k + 6] == t[4..];
    CompactTimeRoundTrip(now);
  }

  /** `a` as the folder part of a joined path: itself when empty or already
      ending in `/`, otherwise `a` and one `/`. */
  function DirPrefix(a: string): (r: string)
    ensures StartsWith(r, a) && |r| <= |a| + 1
    ensures r == [] || EndsWith(r, "/")
  {
    var r := if a == [] || EndsWith(a, "/") then a else a + "/";
    assert r[..|a|] == a;
    assert r != [] ==> r[|r| - 1..] == "/";
    r
  }

  /** `os.path.join(a, b)` with POSIX separators: an absolute `b` replaces
      `a`; otherwise `b` follows `a` and exactly one separator. */
  function PathJoin(a: string, b: string): (r: string)
    ensures EndsWith(r, b)
    ensures StartsWith(b, "/") ==> r == b
    ensures !StartsWith(b, "/") ==> StartsWith(r, DirPrefix(a)) && r[|DirPrefix(a)|..] == b
    ensures !StartsWith(b, "/") ==> StartsWith(r, a) && |r| >= |a| + |b|
  {
    if StartsWith(b, "/") then b
    else
      var d := DirPrefix(a);
      var r := d + b;
      assert r[..|d|] == d && r[|d|..] == b && r[|r| - |b|..] == b;
      StartsWithTransitive(r, d, a);
      r
  }

  /** The record `save_entry` serialises, encrypts and writes. */
  datatype SavedEntry = SavedEntry(title: string, content: string, date: string,
                                   createdTime: string, wordCount: nat)

  /** The folders and entry files under the journal directory. */
  datatype Disk = Disk(folders: set<string>, files: map<string, SavedEntry>)

  /** `os.path.exists`. */
  predicate Exists(d: Disk, p: string) {
    p in d.folders || p in d.files
  }

  /** The answer to an "Unsaved Changes" question. */
  datatype Reply = Yes | No | Cancel

  /** The main-window fields the entry manager reads and writes. */
  datatype Editor = Editor(
    titleText: string,
    editorText: string,
    currentEntryPath: Option<string>,
    currentNotebook: string,
    journalDir: string,
    notebooksDir: string,
    unsavedChanges: bool,
    entries: seq<JournalEntry>,
    currentEntry: Option<JournalEntry>,
    disk: Disk)

  datatype Check = TitleMissing | ContentMissing | Accepted(title: string)

  /** The two refusals of `save_entry`, title first. */
  function ValidateEntry(titleText: string, content: string): (r: Check)
    ensures r == TitleMissing <==> IsBlank(titleText)
    ensures r == ContentMissing <==> !IsBlank(titleText) && IsBlank(content)
    ensures r.Accepted? ==> r.title == Strip(titleText) && r.title != []
  {
    StripEmptyIffBlank(titleText);
    StripEmptyIffBlank(content);
    var title := Strip(titleText);
    if title == [] then TitleMissing
    else if Strip(content) == [] then ContentMissing
    else Accepted(title)
  }

  /** A save either is refused, writes the entry, or fails on a folder or file
      in the way (the exception shown as "Save Error"). */
  datatype SaveOutcome = MissingTitle | EmptyEntry | Saved(path: string) | SaveFailed(path: string)

  datatype SaveResult = SaveResult(editor: Editor, outcome: SaveOutcome)

  /** The folder new entries of the current notebook go under. */
  function NotebookBase(e: Editor): string {
    if e.currentNotebook == DefaultNotebook then e.journalDir
    else PathJoin(e.notebooksDir, e.currentNotebook)
  }

  /** The path is set, not empty, and exists on disk. */
  predicate ReusesPath(e: Editor) {
    e.currentEntryPath.Some? && e.currentEntryPath.value != [] && Exists(e.disk, e.currentEntryPath.value)
  }

  function DateFolder(e: Editor, now: DateTime): string
    requires Valid(now)
  {
    PathJoin(NotebookBase(e), FormatDate(now))
  }

  function NewEntryPath(e: Editor, title: string, now: DateTime): string
    requires Valid(now)
  {
    PathJoin(DateFolder(e, now), EntryFileName(SafeTitle(title), now))
  }

  /** The entry data; its word count is `len(content.split())`. */
  function Record(title: string, content: string, now: DateTime): (r: SavedEntry)
    requires Valid(now)
    ensures r.wordCount == |Words(content)|
  {
    SavedEntry(title, content, FormatDate(now), IsoFormat(now), WordCount(content))
  }

  /** `open(path, "wb")` and the write; opening a folder fails. */
  function WriteEntry(e: Editor, path: string, rec: SavedEntry): SaveResult {
    if path in e.disk.folders then SaveResult(e, SaveFailed(path))
    else SaveResult(e.(disk := e.disk.(files := e.disk.files[path := rec]), unsavedChanges := false), Saved(path))
  }

  /** `save_entry()` with every clock reading taken as `now`. */
  function SaveStep(e: Editor, now: DateTime): SaveResult
    requires Valid(now)
  {
    match ValidateEntry(e.titleText, e.editorText)
    case TitleMissing => SaveResult(e, MissingTitle)
    case ContentMissing => SaveResult(e, EmptyEntry)
    case Accepted(title) =>
      if ReusesPath(e) then WriteEntry(e, e.currentEntryPath.value, Record(title, e.editorText, now))
      else SaveNew(e, title, now)
  }

  /** The branch of `save_entry()` that creates today's folder and a new file
      name. */
  function SaveNew(e: Editor, title: string, now: DateTime): SaveResult
    requires Valid(now)
  {
    CreateAndWrite(e, DateFolder(e, now), NewEntryPath(e, title, now), Record(title, e.editorText, now))
  }

  /** `os.makedirs(folder, exist_ok=True)`, remembering `path` as the entry's
      file, then the write; a file where the folder should be makes
      `makedirs` fail. */
  function CreateAndWrite(e: Editor, folder: string, path: string, rec: SavedEntry): SaveResult {
    if folder in e.disk.files then SaveResult(e, SaveFailed(folder))
    else
      var e1 := e.(disk := e.disk.(folders := e.disk.folders + {folder}), currentEntryPath := Some(path));
      WriteEntry(e1, path, rec)
  }

  /** A refused save changes nothing, title check first. */
  lemma {:induction false} SaveRefusals(e: Editor, now: DateTime)
    requires Valid(now)
    ensures IsBlank(e.titleText) ==> SaveStep(e, now) == SaveResult(e, MissingTitle)
    ensures !IsBlank(e.titleText) && IsBlank(e.editorText) ==> SaveStep(e, now) == SaveResult(e, EmptyEntry)
  {
  }

  /** A save touches only the entry path, the disk and the unsaved flag; a save
      that writes stores the record at the path it reports and clears the flag;
      one that does not write leaves the files and the flag alone. */
  lemma {:induction false} SaveEffects(e: Editor, now: DateTime)
    requires Valid(now)
    ensures var r := SaveStep(e, now);
            && r.editor.titleText == e.titleText && r.editor.editorText == e.editorText
            && r.editor.currentNotebook == e.currentNotebook && r.editor.journalDir == e.journalDir
            && r.editor.notebooksDir == e.notebooksDir && r.editor.entries == e.entries
            && r.editor.currentEntry == e.currentEntry
            && r.editor.disk.folders >= e.disk.folders
    ensures var r := SaveStep(e, now);
            r.outcome.Saved? ==>
              && !r.editor.unsavedChanges
              && r.editor.currentEntryPath == Some(r.outcome.path)
              && r.editor.disk.files == e.disk.files[r.outcome.path := Record(Strip(e.titleText), e.editorText, now)]
    ensures var r := SaveStep(e, now);
            !r.outcome.Saved? ==> r.editor.unsavedChanges == e.unsavedChanges && r.editor.disk.files == e.disk.files
  {
    match ValidateEntry(e.titleText, e.editorText)
    case TitleMissing =>
    case ContentMissing =>
    case Accepted(title) =>
      if ReusesPath(e) {
        WriteEntryEffects(e, e.currentEntryPath.value, Record(title, e.editorText, now));
      } else {
        assert SaveStep(e, now) == SaveNew(e, title, now);
        SaveNewEffects(e, title, now);
      }
  }

  lemma {:induction false} WriteEntryEffects(e: Editor, path: string, rec: SavedEntry)
    ensures var r := WriteEntry(e, path, rec);
            && r.editor.(disk := e.disk, unsavedChanges := e.unsavedChanges) == e
            && r.editor.disk.folders == e.disk.folders
            && (r.outcome.Saved? ==> r.outcome.path == path && !r.editor.unsavedChanges
                                     && r.editor.disk.files == e.disk.files[path := rec])
            && (!r.outcome.Saved? ==> r == SaveResult(e, SaveFailed(path)))
  {
  }

  lemma {:induction false} SaveNewEffects(e: Editor, title: string, now: DateTime)
    requires Valid(now)
    ensures var r := SaveNew(e, title, now);
            && r.editor.(disk := e.disk, unsavedChanges := e.unsavedChanges, currentEntryPath := e.currentEntryPath) == e
            && r.editor.disk.folders >= e.disk.folders
            && (r.outcome.Saved? ==> && r.outcome.path == NewEntryPath(e, title, now)
                                     && r.editor.currentEntryPath == Some(r.outcome.path)
                                     && !r.editor.unsavedChanges
                                     && r.editor.disk.files == e.disk.files[r.outcome.path := Record(title, e.editorText, now)])
            && (!r.outcome.Saved? ==> r.editor.disk.files == e.disk.files && r.editor.unsavedChanges == e.unsavedChanges)
  {
    CreateAndWriteEffects(e, DateFolder(e, now), NewEntryPath(e, title, now), Record(title, e.editorText, now));
  }

  lemma {:induction false} CreateAndWriteEffects(e: Editor, folder: string, path: string, rec: SavedEntry)
    ensures var r := CreateAndWrite(e, folder, path, rec);
            && r.editor.(disk := e.disk, unsavedChanges := e.unsavedChanges, currentEntryPath := e.currentEntryPath) == e
            && r.editor.disk.folders >= e.disk.folders
            && (folder !in e.disk.files && path != folder && path !in e.disk.folders ==>
                  r.outcome == Saved(path) && r.editor.disk.folders == e.disk.folders + {folder})
            && (r.outcome.Saved? ==> && r.outcome.path == path
                                     && r.editor.currentEntryPath == Some(path)
                                     && !r.editor.unsavedChanges
                                     && r.editor.disk.files == e.disk.files[path := rec])
            && (!r.outcome.Saved? ==> r.editor.disk.files == e.disk.files && r.editor.unsavedChanges == e.unsavedChanges)
  {
    if folder !in e.disk.files {
      var e1 := e.(disk := e.disk.(folders := e.disk.folders + {folder}), currentEntryPath := Some(path));
      WriteEntryEffects(e1, path, rec);
    }
  }

  /** An existing current entry is overwritten in place. */
  lemma {:induction false} SaveReusesPath(e: Editor, now: DateTime)
    requires Valid(now) && ValidateEntry(e.titleText, e.editorText).Accepted?
    requires ReusesPath(e) && e.currentEntryPath.value !in e.disk.folders
    ensures SaveStep(e, now).outcome == Saved(e.currentEntryPath.value)
    ensures SaveStep(e, now).editor.disk.folders == e.disk.folders
  {
    var title := Strip(e.titleText);
    assert SaveStep(e, now) == WriteEntry(e, e.currentEntryPath.value, Record(title, e.editorText, now));
  }

  /** Otherwise the entry gets a new `.enc` file in today's folder under the
      notebook's folder: the journal directory for "Default", the notebook's
      own folder under the notebooks directory for any other. */
  lemma {:induction false} SaveNewPath(e: Editor, now: DateTime)
    requires Valid(now) && ValidateEntry(e.titleText, e.editorText).Accepted?
    requires !ReusesPath(e) && DateFolder(e, now) !in e.disk.files
    requires NewEntryPath(e, Strip(e.titleText), now) !in e.disk.folders
    ensures var p := NewEntryPath(e, Strip(e.titleText), now);
            && SaveStep(e, now).outcome == Saved(p)
            && EndsWith(p, EntryExtension)
            && StartsWith(p, DirPrefix(DateFolder(e, now))) && NoSeparator(p[|DirPrefix(DateFolder(e, now))|..])
            && StartsWith(DateFolder(e, now), DirPrefix(NotebookBase(e)))
            && NoSeparator(DateFolder(e, now)[|DirPrefix(NotebookBase(e))|..])
            && SaveStep(e, now).editor.disk.folders == e.disk.folders + {DateFolder(e, now)}
  {
    var title := Strip(e.titleText);
    assert SaveStep(e, now) == SaveNew(e, title, now);
    SaveNewWrites(e, title, now);
    NewEntryPathShape(e, title, now);
  }

  lemma {:induction false} SaveNewWrites(e: Editor, title: string, now: DateTime)
    requires Valid(now) && DateFolder(e, now) !in e.disk.files
    requires NewEntryPath(e, title, now) !in e.disk.folders
    ensures SaveNew(e, title, now).outcome == Saved(NewEntryPath(e, title, now))
    ensures SaveNew(e, title, now).editor.disk.folders == e.disk.folders + {DateFolder(e, now)}
  {
    NewEntryPathShape(e, title, now);
    CreateAndWriteEffects(e, DateFolder(e, now), NewEntryPath(e, title, now), Record(title, e.editorText, now));
  }

  /** No `/` anywhere: a single path component. */
  predicate NoSeparator(s: string) {
    forall i :: 0 <= i < |s| ==> s[i] != '/'
  }

  /** A new entry path is an `.enc` file directly inside today's folder, which
      is itself directly inside the notebook's folder: the path is the
      notebook folder, `/`, the date, `/`, the file name, with no further
      separator in the date or the name. */
  lemma {:induction false} NewEntryPathShape(e: Editor, title: string, now: DateTime)
    requires Valid(now)
    ensures var p, folder, base := NewEntryPath(e, title, now), DateFolder(e, now), NotebookBase(e);
            var name := EntryFileName(SafeTitle(title), now);
            && EndsWith(p, EntryExtension)
            && StartsWith(p, DirPrefix(folder)) && p[|DirPrefix(folder)|..] == name && NoSeparator(name)
            && StartsWith(folder, DirPrefix(base)) && folder[|DirPrefix(base)|..] == FormatDate(now)
            && NoSeparator(FormatDate(now))
            && StartsWith(p, DirPrefix(base))
  {
    var name := EntryFileName(SafeTitle(title), now);
    DateNotAbsolute(now);
    FileNameNotAbsolute(SafeTitle(title), now);
    FileNameNoSeparator(SafeTitle(title), now);
    DateNoSeparator(now);
    NestedJoin(NotebookBase(e), FormatDate(now), name);
    EndsWithTransitive(NewEntryPath(e, title, now), name, EntryExtension);
  }

  /** Joining a relative folder and then a relative name nests both under `base`. */
  lemma {:induction false} NestedJoin(base: string, dir: string, name: string)
    requires !StartsWith(dir, "/") && !StartsWith(name, "/")
    ensures var folder := PathJoin(base, dir); var p := PathJoin(folder, name);
            && StartsWith(p, DirPrefix(folder)) && p[|DirPrefix(folder)|..] == name
            && StartsWith(folder, DirPrefix(base)) && folder[|DirPrefix(base)|..] == dir
            && StartsWith(p, DirPrefix(base)) && EndsWith(p, name)
  {
    var folder := PathJoin(base, dir);
    var p := PathJoin(folder, name);
    StartsWithTransitive(p, DirPrefix(folder), folder);
    StartsWithTransitive(p, folder, DirPrefix(base));
  }

  lemma {:induction false} FileNameNoSeparator(safeTitle: string, now: DateTime)
    requires Valid(now)
    requires forall i :: 0 <= i < |safeTitle| ==> IsStemChar(safeTitle[i])
    ensures NoSeparator(EntryFileName(safeTitle, now))
  {
    var name := EntryFileName(safeTitle, now);
    var k := |safeTitle|;
    assert name == safeTitle + "_" + CompactTime(now) + EntryExtension;
    forall i | 0 <= i < |name|
      ensures name[i] != '/'
    {
      if i < k {
        assert name[i] == safeTitle[i];
      } else if k < i < k + 7 {
        assert name[i] == CompactTime(now)[i - k - 1];
      }
    }
  }

  lemma {:induction false} DateNoSeparator(now: DateTime)
    requires Valid(now)
    ensures NoSeparator(FormatDate(now))
  {
    var y, m, d := NatToDecimal(now.year), PadTo(now.month, 2), PadTo(now.day, 2);
    assert NoSeparator(y) && NoSeparator(m) && NoSeparator(d);
    NoSeparatorAppend(y, "-");
    NoSeparatorAppend(y + "-", m);
    NoSeparatorAppend(y + "-" + m, "-");
    NoSeparatorAppend(y + "-" + m + "-", d);
  }

  lemma {:induction false} NoSeparatorAppend(a: string, b: string)
    requires NoSeparator(a) && NoSeparator(b)
    ensures NoSeparator(a + b)
  {
    forall i | 0 <= i < |a + b|
      ensures (a + b)[i] != '/'
    {
      if i >= |a| {
        assert (a + b)[i] == b[i - |a|];
      }
    }
  }

  lemma {:induction false} DateNotAbsolute(now: DateTime)
    requires Valid(now)
    ensures !StartsWith(FormatDate(now), "/")
  {
    NotStartsWithChar(FormatDate(now), '/');
  }

  lemma {:induction false} FileNameNotAbsolute(safeTitle: string, now: DateTime)
    requires Valid(now)
    requires forall i :: 0 <= i < |safeTitle| ==> IsStemChar(safeTitle[i])
    ensures !StartsWith(EntryFileName(safeTitle, now), "/")
  {
    var name := EntryFileName(safeTitle, now);
    assert name[0] != '/' by {
      if safeTitle == [] {
        assert name[0] == '_';
      } else {
        assert name[0] == safeTitle[0];
      }
    }
    NotStartsWithChar(name, '/');
  }

  /** The editor after the "Unsaved Changes" question, or None when the user
      cancels. Answering Yes saves first; the caller proceeds whatever the
      save's outcome. */
  function AfterPrompt(e: Editor, reply: Reply, now: DateTime): Option<Editor>
    requires Valid(now)
  {
    if !e.unsavedChanges then Some(e)
    else if reply == Yes then Some(SaveStep(e, now).editor)
    else if reply == Cancel then None
    else Some(e)
  }

  /** `new_entry()`. */
  function NewEntryStep(e: Editor, reply: Reply, now: DateTime): Editor
    requires Valid(now)
  {
    match AfterPrompt(e, reply, now)
    case None => e
    case Some(e1) =>
      e1.(currentEntry := None, currentEntryPath := None, titleText := "", editorText := "", unsavedChanges := false)
  }

  /** `load_selected_entry(item)` for an item carrying `index`. Showing the
      entry's title and text fires the editor's change handlers, which raise
      the unsaved flag; the date label then parses the entry's date with
      `strptime`, and only when that succeeds is the flag cleared. When it
      raises, the handler ends there with the entry shown and the flag up. */
  function SelectStep(e: Editor, index: int, reply: Reply, now: DateTime): Editor
    requires Valid(now)
  {
    match AfterPrompt(e, reply, now)
    case None => e
    case Some(e1) =>
      if 0 <= index < |e1.entries| then
        var entry := e1.entries[index];
        e1.(currentEntry := Some(entry), currentEntryPath := entry.filePath,
            titleText := entry.title, editorText := entry.content,
            unsavedChanges := StrptimeDate(entry.date).None?)
      else e1
  }

  /** `load_selected_entry` ends in the `ValueError` of `strptime`: the
      selection goes ahead and the chosen entry's date does not parse. */
  predicate SelectRaises(e: Editor, index: int, reply: Reply, now: DateTime)
    requires Valid(now)
  {
    match AfterPrompt(e, reply, now)
    case None => false
    case Some(e1) => 0 <= index < |e1.entries| && StrptimeDate(e1.entries[index].date).None?
  }

  /** Unless cancelled, a new entry starts blank and clean, in the same notebook,
      with the disk as the optional save left it. */
  lemma {:induction false} NewEntryClears(e: Editor, reply: Reply, now: DateTime)
    requires Valid(now)
    ensures e.unsavedChanges && reply == Cancel ==> NewEntryStep(e, reply, now) == e
    ensures !(e.unsavedChanges && reply == Cancel) ==>
              var n := NewEntryStep(e, reply, now);
              && n.currentEntry == None && n.currentEntryPath == None
              && n.titleText == "" && n.editorText == "" && !n.unsavedChanges
              && n.currentNotebook == e.currentNotebook && n.entries == e.entries
              && n.disk == (if e.unsavedChanges && reply == Yes then SaveStep(e, now).editor.disk else e.disk)
  {
    SaveEffects(e, now);
  }

  /** An index outside the entry list selects nothing: the editor shows what
      it showed, and the only change is the save a Yes answer makes. */
  lemma {:induction false} SelectOutOfRange(e: Editor, index: int, reply: Reply, now: DateTime)
    requires Valid(now) && !(0 <= index < |e.entries|)
    ensures var s := SelectStep(e, index, reply, now);
            && s.currentEntry == e.currentEntry && s.titleText == e.titleText
            && s.editorText == e.editorText && s.entries == e.entries
            && s == (if e.unsavedChanges && reply == Yes then SaveStep(e, now).editor else e)
    ensures !SelectRaises(e, index, reply, now)
  {
    SaveEffects(e, now);
  }

  /** An index inside the list makes that entry current and shows it; the
      unsaved flag ends cleared exactly when the entry's date parses. */
  lemma {:induction false} SelectInRange(e: Editor, index: int, reply: Reply, now: DateTime)
    requires Valid(now) && 0 <= index < |e.entries|
    requires !(e.unsavedChanges && reply == Cancel)
    ensures var s := SelectStep(e, index, reply, now);
            && s.currentEntry == Some(e.entries[index])
            && s.currentEntryPath == e.entries[index].filePath
            && s.titleText == e.entries[index].title
            && s.editorText == e.entries[index].content
            && (s.unsavedChanges <==> StrptimeDate(e.entries[index].date).None?)
    ensures SelectRaises(e, index, reply, now) <==> StrptimeDate(e.entries[index].date).None?
  {
    SaveEffects(e, now);
  }

  /** An entry whose date is one a save wrote (a four-digit year) loads
      without the error and leaves the editor clean. */
  lemma {:induction false} SelectSavedDate(e: Editor, index: int, reply: Reply, now: DateTime, saved: DateTime)
    requires Valid(now) && 0 <= index < |e.entries|
    requires !(e.unsavedChanges && reply == Cancel)
    requires Valid(saved) && saved.year >= 1000 && e.entries[index].date == FormatDate(saved)
    ensures !SelectRaises(e, index, reply, now)
    ensures !SelectStep(e, index, reply, now).unsavedChanges
  {
    StrptimeFormatDate(saved);
    SelectInRange(e, index, reply, now);
  }

  /** Cancelling the question leaves everything as it was. */
  lemma {:induction false} SelectCancelled(e: Editor, index: int, now: DateTime)
    requires Valid(now) && e.unsavedChanges
    ensures SelectStep(e, index, Cancel, now) == e
    ensures !SelectRaises(e, index, Cancel, now)
  {
  }

  class EntryManager {
    var titleText: string
    var editorText: string
    var currentEntryPath: Option<string>
    var currentNotebook: string
    var journalDir: string
    var notebooksDir: string
    var unsavedChanges: bool
    var entries: seq<JournalEntry>
    var currentEntry: Option<JournalEntry>
    var disk: Disk

    function State(): Editor
      reads this
    {
      Editor(titleText, editorText, currentEntryPath, currentNotebook, journalDir,
             notebooksDir, unsavedChanges, entries, currentEntry, disk)
    }

    constructor (e: Editor)
      ensures State() == e
    {
      titleText := e.titleText;
      editorText := e.editorText;
      currentEntryPath := e.currentEntryPath;
      currentNotebook := e.currentNotebook;
      journalDir := e.journalDir;
      notebooksDir := e.notebooksDir;
      unsavedChanges := e.unsavedChanges;
      entries := e.entries;
      currentEntry := e.currentEntry;
      disk := e.disk;
    }

    method SaveEntry(now: DateTime) returns (outcome: SaveOutcome)
      requires Valid(now)
      modifies this
      ensures SaveResult(State(), outcome) == SaveStep(old(State()), now)
    {
      var check := ValidateEntry(titleText, editorText);
      match check
      case TitleMissing =>
        return MissingTitle;
      case ContentMissing =>
        return EmptyEntry;
      case Accepted(title) =>
        if currentEntryPath.Some? && currentEntryPath.value != [] && Exists(disk, currentEntryPath.value) {
          outcome := WriteFile(currentEntryPath.value, Record(title, editorText, now));
        } else {
          outcome := CreateFolderAndWrite(DateFolder(State(), now), NewEntryPath(State(), title, now),
                                          Record(title, editorText, now));
        }
    }

    /** The `os.makedirs` of the new-file branch, then the write. */
    method CreateFolderAndWrite(folderPath: string, filePath: string, entryData: SavedEntry) returns (outcome: SaveOutcome)
      modifies this
      ensures SaveResult(State(), outcome) == CreateAndWrite(old(State()), folderPath, filePath, entryData)
    {
      if folderPath in disk.files {
        return SaveFailed(folderPath);
      }
      disk := disk.(folders := disk.folders + {folderPath});
      currentEntryPath := Some(filePath);
      outcome := WriteFile(filePath, entryData);
    }

    /** The `open(file_path, "wb")` and write at the end of `save_entry()`. */
    method WriteFile(filePath: string, entryData: SavedEntry) returns (outcome: SaveOutcome)
      modifies this
      ensures SaveResult(State(), outcome) == WriteEntry(old(State()), filePath, entryData)
    {
      if filePath in disk.folders {
        return SaveFailed(filePath);
      }
      disk := disk.(files := disk.files[filePath := entryData]);
      unsavedChanges := false;
      outcome := Saved(filePath);
    }

    /** The "save changes?" question both `new_entry()` and
        `load_selected_entry()` ask first; `proceed` is false on Cancel. */
    method Prompt(reply: Reply, now: DateTime) returns (proceed: bool)
      requires Valid(now)
      modifies this
      ensures proceed <==> AfterPrompt(old(State()), reply, now).Some?
      ensures proceed ==> State() == AfterPrompt(old(State()), reply, now).value
      ensures !proceed ==> State() == old(State())
    {
      proceed := true;
      if unsavedChanges {
        if reply == Yes {
          var _ := SaveEntry(now);
        } else if reply == Cancel {
          proceed := false;
        }
      }
    }

    method NewEntry(reply: Reply, now: DateTime)
      requires Valid(now)
      modifies this
      ensures State() == NewEntryStep(old(State()), reply, now)
    {
      var proceed := Prompt(reply, now);
      if !proceed {
        return;
      }
      currentEntry := None;
      currentEntryPath := None;
      titleText := "";
      editorText := "";
      unsavedChanges := false;
    }

    /** `raised` reports the `ValueError` that ends the handler early. */
    method LoadSelectedEntry(index: int, reply: Reply, now: DateTime) returns (raised: bool)
      requires Valid(now)
      modifies this
      ensures State() == SelectStep(old(State()), index, reply, now)
      ensures raised == SelectRaises(old(State()), index, reply, now)
    {
      raised := false;
      var proceed := Prompt(reply, now);
      if !proceed {
        return;
      }
      if 0 <= index < |entries| {
        var entry := entries[index];
        currentEntry := Some(entry);
        currentEntryPath := entry.filePath;
        titleText := entry.title;
        editorText := entry.content;
        unsavedChanges := true;
        if StrptimeDate(entry.date).None? {
          raised := true;
          return;
        }
        unsavedChanges := false;
      }
    }
  }
}
