# SecureJournal core, modelled in Dafny

This project models the logic at the centre of the SecureJournal desktop
journal. Its heart is `SecureStorageManager`, an encrypted virtual file store:

- an in-memory index maps each virtual path to its secure file name, creation time and ciphertext size;
- a flat `secure_storage` directory holds one encrypted blob per path, named by a truncated SHA-256 of the path;
- an encrypted `index.enc` file persists the index.

Around that store the model covers the rules the user interface applies:

- how an entry is validated and where it is saved, including the file-name sanitiser;
- the journal entry record and its word count;
- the rename, delete and export decisions of the notebook dialog;
- the master-password checks and the subtitle, warning and echo-mode rules of the password dialog;
- the settings defaults, the font-size clamps and the word-wrap toggle.

## Modules

- `StorageModel` (storage_model.dfy) is the store as values:
  - the index is a `map` plus a `seq` of its keys in Python dict insertion order;
  - the directory is a `map` from names to a regular file or a subdirectory;
  - each operation is a function from the old state to the new state and a result;
  - the lemmas state what each operation promises.
- `SecureStorage` (secure_storage.dfy) is the class `SecureStorageManager`. Its fields are updated in place, and each method is proved against the matching step function of `StorageModel`.
- `Entries` (entries.dfy) covers `EntryManager`:
  - the sanitiser, validation and path choice are functions;
  - the editor state is a datatype;
  - the class methods are proved against the step functions.
- `Journal` (journal.dfy) is the `JournalEntry` record.
- `Notebooks` (notebooks.dfy) and `Passwords` (passwords.dfy) each hold the dialog's pure decision chain, plus a class for its mutable state.
- `Settings` (settings.dfy) holds the config map of `SettingsManager`, its defaults and the font-size and word-wrap updates.
- Shared support modules:
  - `Text`: Python's whitespace, `strip`, `split`, `startswith`, `replace`, decimal rendering and UTF-8 encoding;
  - `Lex`: string ordering and sorting, used for `sorted`;
  - `Clock`: `strftime` and `isoformat` renderings of a clock reading;
  - `Dialog`: the dialog's open, accepted and rejected outcome.

Fernet, SHA-256 and the JSON rendering of the index form a `Codec` value held by the manager. Its predicate `Sound` requires that:

- decryption undoes encryption;
- a digest is 64 hex digits;
- the rendered index parses back to itself.

The manager's constructor requires `Sound`, so no axiom is stated. Clock readings (`datetime.now()`) are parameters of type `DateTime`, rendered with the same `strftime` or `isoformat` the source uses. User replies to message boxes are parameters too.

## Model

| member | source | states |
|---|---|---|
| StorageModel.SecureFilenameShape | secure_storage_manager.py:21-24 | a secure file name depends only on the path; it is 20 characters, 16 hex digits then `.dat`, and therefore never `index.enc` |
| StorageModel.LoadIndex | secure_storage_manager.py:26-36 | reading `index.enc` yields distinct keys in insertion order matching the index; a missing, unreadable, undecryptable or unparsable file yields an empty index |
| StorageModel.SavedIndexReloads | secure_storage_manager.py:38-46 | once `_save_index` has written the index, `_load_index` reads back exactly that index in the same key order |
| SecureStorage.SecureStorageManager.constructor | secure_storage_manager.py:11-19 | the manager starts with the directory as found and the index `_load_index` reads from it |
| SecureStorage.SecureStorageManager.SaveIndex | secure_storage_manager.py:38-46 | `index.enc` is rewritten with the encrypted index, and nothing else changes; when the name is taken by a directory, the call fails and the directory is unchanged |
| SecureStorage.SecureStorageManager.StoreFile | secure_storage_manager.py:48-76 | the new state and result are those of `StoreStep` with the `isoformat()` of the clock reading as the entry's creation time, and the index keys stay in step with their order |
| StorageModel.StoreEffect | secure_storage_manager.py:48-76 | after a successful store, the index maps the path to its secure name, the given time and the ciphertext length; a new path goes to the end of the key order; the blob is written under that name; `index.enc` is rewritten; no other file changes |
| StorageModel.RestoreReusesName | secure_storage_manager.py:66-70 | storing to a path that is already indexed keeps its secure file name, its place in the key order and the set of index keys |
| StorageModel.StoreThenLoad | secure_storage_manager.py:78-97 | after a successful store, loading the same path returns the stored bytes and changes nothing |
| StorageModel.StoreStrThenLoad | secure_storage_manager.py:55-58 | a `str` payload loads back as its UTF-8 encoding |
| StorageModel.StoreUnsupportedChangesNothing | secure_storage_manager.py:55-60 | data that is not bytes, a str or a dict is refused, and the state is unchanged |
| StorageModel.StoreOntoDirectory | secure_storage_manager.py:62-63 | when a directory occupies the secure name, the store fails, and the index and directory are unchanged |
| StorageModel.StoreKeepsWellFormed | secure_storage_manager.py:66-70 | a store keeps the key order duplicate-free and holding exactly the index keys |
| StorageModel.StorePersistsIndex | secure_storage_manager.py:66-73 | after a successful store, `index.enc` reloads as the new index |
| SecureStorage.SecureStorageManager.LoadFile | secure_storage_manager.py:78-100 | the new state and result are those of `LoadStep` |
| StorageModel.LoadUnknown | secure_storage_manager.py:81-82 | loading a path that is not indexed returns None and changes nothing |
| StorageModel.LoadDangling | secure_storage_manager.py:87-91 | when an indexed path has no physical file, the load returns None; exactly that entry leaves the index and the key order; only `index.enc` is rewritten |
| StorageModel.PrunePersistsIndex | secure_storage_manager.py:87-91 | after the dangling entry is pruned, `index.enc` reloads as the pruned index |
| StorageModel.LoadTampered | secure_storage_manager.py:93-97 | a physical file that does not decrypt makes the load fail, and the state is unchanged |
| StorageModel.LoadKeepsWellFormed | secure_storage_manager.py:87-91 | a load keeps the key order in step with the index |
| SecureStorage.SecureStorageManager.DeleteFile | secure_storage_manager.py:102-121 | the new state and result are those of `DeleteStep` |
| StorageModel.DeleteUnknown | secure_storage_manager.py:105-106 | deleting a path that is not indexed returns False and changes nothing |
| StorageModel.DeleteIndexed | secure_storage_manager.py:108-118 | deleting an indexed path returns True; it removes that entry from the index and the key order, and removes its physical file if present; every other entry and every other file except `index.enc` is unchanged |
| StorageModel.DeleteKeepsOthersFiles | secure_storage_manager.py:102-118 | deleting one path leaves every other path's entry and its blob in place |
| StorageModel.DeletePersistsIndex | secure_storage_manager.py:115-117 | after a delete that returns True, `index.enc` reloads as the new index |
| StorageModel.DeleteKeepsWellFormed | secure_storage_manager.py:116 | a delete keeps the key order in step with the index |
| StorageModel.RemoveKey | secure_storage_manager.py:89 | dropping a key from the key order keeps exactly the other keys and no duplicates, and leaves an order without that key as it was |
| StorageModel.FileListing | secure_storage_manager.py:123-133 | the listing names exactly the indexed paths that start with the prefix, each with its stored time and size, each once |
| SecureStorage.SecureStorageManager.ListFiles | secure_storage_manager.py:123-133 | the loop builds exactly `FileListing` for the prefix: every indexed path starting with it, once each |
| StorageModel.ListAllWithEmptyPrefix | secure_storage_manager.py:123 | the default empty prefix lists every index entry, once each |
| StorageModel.ListAllKeepsOrder | secure_storage_manager.py:126 | with the empty prefix, the listing follows the index's key order |
| StorageModel.StoredPathIsListed | secure_storage_manager.py:123-133 | after a successful store of `p`, `p` is listed exactly once under every prefix it starts with |
| SecureStorage.SecureStorageManager.CreateVirtualFolder | secure_storage_manager.py:135-139 | creating a folder is exactly storing the marker record, stamped with the `isoformat()` of the clock reading, at `folder/.folder_marker` |
| StorageModel.MarkerKeyGivesFolder | secure_storage_manager.py:145-147 | a marker key `f/.folder_marker` contributes `f` to the folder set, when `f` holds no marker itself |
| StorageModel.CreatedFolderIsListed | secure_storage_manager.py:135-154 | after `create_virtual_folder(f)` succeeds, `f` is among the virtual folders, when `f` itself holds no `/.folder_marker` |
| SecureStorage.SecureStorageManager.ListVirtualFolders | secure_storage_manager.py:141-154 | the result is strictly sorted and duplicate-free, and it holds exactly the folders the index keys contribute |
| Lex.SortedFromSet | secure_storage_manager.py:154 | `sorted(list(s))` holds exactly the members of the set, strictly ascending and without duplicates |
| Lex.InsertSorted | secure_storage_manager.py:154 | inserting into a sorted list keeps it sorted, with the new element added |
| SecureStorage.SecureStorageManager.GetFileInfo | secure_storage_manager.py:156-160 | the result is the path's index record when the path is indexed, and None otherwise |
| SecureStorage.SecureStorageManager.IsReferenced | secure_storage_manager.py:173-177 | the scan over the index values finds a file name exactly when some entry refers to it |
| SecureStorage.SecureStorageManager.CleanupOrphanedFiles | secure_storage_manager.py:162-185 | the method removes exactly the orphans and returns their number; the index is untouched |
| StorageModel.OrphansAreExactlyUnreferenced | secure_storage_manager.py:166-179 | a directory name is an orphan exactly when it is a regular file, is not `index.enc`, and no index entry refers to it |
| StorageModel.StoreDeleteLeavesNoOrphan | secure_storage_manager.py:162-183 | on a store with no entries and no orphans, storing one path and deleting it leaves no entries and nothing to clean up |
| SecureStorage.SecureStorageManager.GetStorageStats | secure_storage_manager.py:187-205 | `virtual_files` is the number of index entries; `physical_files` counts every regular file, `index.enc` included; `total_size_bytes` sums their sizes |
| SecureStorage.ScanFiles | secure_storage_manager.py:193-200 | the directory loop counts the regular files and sums their sizes, whatever order it visits them in |
| StorageModel.SizeSumRemove | secure_storage_manager.py:198 | the total size does not depend on the order in which the files are added up |
| StorageModel.DistinctKeysCount | secure_storage_manager.py:189 | the number of index entries equals the length of the key order |
| Entries.ValidateEntry | entry_manager.py:33-42 | the title check comes first: a title that strips to nothing is refused; an accepted title has content that is not blank; the accepted title is the stripped title |
| Entries.SaveRefusals | entry_manager.py:36-42 | a blank title refuses the save with the "Missing Title" outcome, and a blank body with the "Empty Entry" outcome; either way the state is unchanged |
| Entries.KeepTitleChars | entry_manager.py:61 | the filter's output holds only letters, digits, spaces, `-` and `_`, and a title made only of those passes unchanged |
| Entries.KeepTitleCharsAppend | entry_manager.py:61 | the filter works character by character and keeps order: filtering `s + t` gives the filtered `s` followed by the filtered `t`, and one character is kept exactly when it is allowed |
| Entries.KeepTitleCharsCounts | entry_manager.py:61 | every allowed character occurs as often after filtering as before |
| Entries.SafeTitle | entry_manager.py:61-62 | the safe title holds only letters, digits, `-` and `_`, has no space, and is at most 50 characters |
| Entries.SafeTitleIdempotent | entry_manager.py:61-62 | sanitising a safe title changes nothing |
| Entries.SafeTitleOfSafe | entry_manager.py:61-62 | a title of at most 50 safe characters is its own safe title |
| Entries.EntryFileName | entry_manager.py:63-64 | the file name is the safe title, `_`, six time digits and `.enc`, so it always ends in `.enc` |
| Entries.EntryFileNameTime | entry_manager.py:63 | the six digits read back as the hour, minute and second of the clock reading |
| Entries.DirPrefix | entry_manager.py:57 | the folder part of a join starts with the folder, is at most one character longer, and is empty or ends in `/` |
| Entries.PathJoin | entry_manager.py:57 | `os.path.join(a, b)` is `b` when `b` is absolute; otherwise it is `a`, exactly one added `/` unless `a` is empty or already ends in `/`, then `b` |
| Entries.NewEntryPathShape | entry_manager.py:50-67 | a new entry path is the notebook's base folder, a separator, the `%Y-%m-%d` date, a separator, then the file name; the date and the name contain no `/`, so the file sits directly in the date folder, directly under the base; it ends in `.enc` |
| Entries.NestedJoin | entry_manager.py:57-66 | joining a relative folder name and then a relative file name puts each, after one separator, directly under the previous path |
| Entries.FileNameNoSeparator | entry_manager.py:61-64 | an entry file name contains no `/` |
| Entries.DateNoSeparator | entry_manager.py:56 | the date folder name contains no `/` |
| Entries.SaveReusesPath | entry_manager.py:46-47 | when the current entry path is set and exists, the save writes to that same path and creates no folder |
| Entries.SaveNewPath | entry_manager.py:48-67 | otherwise the save writes a new `.enc` file directly inside the date folder, which sits directly inside the base for the notebook (the journal directory for "Default", `notebooks/<name>` for any other), so a sibling folder sharing the base's name as a prefix is never used; the save adds only the date folder |
| Entries.SaveNewWrites | entry_manager.py:55-67 | when the date folder can be created and the path is free, the new entry is saved at the new path |
| Entries.Record | entry_manager.py:71-77 | the stored record's word count is the number of whitespace-separated words of the content |
| Entries.SaveEffects | entry_manager.py:32-92 | in the model, a save never changes the texts, notebook, directories, entries list or current entry (the list refresh after a save is not modelled); a successful save stores the record at the reported path, sets it as the current path and clears the unsaved flag |
| Entries.WriteEntryEffects | entry_manager.py:83-86 | a successful write stores the record at the path and clears the unsaved flag; a failed write changes nothing |
| Entries.SaveNewEffects | entry_manager.py:55-86 | a new-path save stores the record at `NewEntryPath` and makes it the current path; when it fails, the files and the unsaved flag are unchanged |
| Entries.CreateAndWriteEffects | entry_manager.py:58-86 | creating the date folder only adds folders; when the folder and path are free, the entry is saved there and only that folder is added; a success stores the record and makes the path current; a failure leaves the files and the unsaved flag unchanged |
| Entries.DateNotAbsolute | entry_manager.py:56-57 | the date folder name is relative, so joining keeps the base path |
| Entries.FileNameNotAbsolute | entry_manager.py:64-66 | the entry file name is relative, so joining keeps the date folder |
| Entries.EntryManager.constructor | entry_manager.py:10-11 | the manager wraps the given editor state |
| Entries.EntryManager.SaveEntry | entry_manager.py:32-92 | the new editor state and the outcome are those of `SaveStep` |
| Entries.EntryManager.CreateFolderAndWrite | entry_manager.py:58-84 | `makedirs`, then the write, with the outcome of `CreateAndWrite` |
| Entries.EntryManager.WriteFile | entry_manager.py:83-86 | the write with the outcome of `WriteEntry` |
| Entries.EntryManager.Prompt | entry_manager.py:14-21 | with unsaved changes, the reply Yes saves first, Cancel stops with nothing changed, and No goes on |
| Entries.EntryManager.NewEntry | entry_manager.py:13-30 | the new state is that of `NewEntryStep` |
| Entries.NewEntryClears | entry_manager.py:13-30 | Cancel on unsaved changes leaves everything unchanged; otherwise the current entry, its path and both texts are cleared, the unsaved flag is off, and the disk is the saved one exactly when the reply was Yes |
| Entries.EntryManager.LoadSelectedEntry | entry_manager.py:145-164 | the new state is that of `SelectStep`, and `raised` reports exactly the `ValueError` of `strptime` on the entry's date |
| Entries.SelectOutOfRange | entry_manager.py:146-156 | in the model, for every reply, an index outside `0 <= index < len(entries)` leaves the current entry, both texts and the entries list as they were and raises nothing; the state is exactly the old one, or the one a Yes save left |
| Entries.SelectInRange | entry_manager.py:146-163 | an index in range makes that entry current with its path, title and content; the unsaved flag ends off, and the handler ends without error, exactly when the entry's date parses as `%Y-%m-%d`; otherwise the flag the text handlers raised stays on |
| Entries.SelectSavedDate | entry_manager.py:162-163 | an entry whose date is one a save wrote at line 74 (four-digit year) loads without error and leaves the unsaved flag off |
| Entries.SelectCancelled | entry_manager.py:146-153 | Cancel on unsaved changes leaves everything as it was |
| Journal.WordCount | journal_entry.py:10 | the count equals the number of word starts, is 0 exactly for blank or empty content, and never exceeds the content length |
| Text.WordsCountsWordStarts | journal_entry.py:10 | `len(s.split())` equals an independent count of the positions where a word begins |
| Text.WordsAreTokens | journal_entry.py:10 | every piece of `split()` is non-empty and contains no whitespace |
| Text.WordsEmptyIffBlank | journal_entry.py:10 | `split()` is empty exactly when the text is empty or all whitespace |
| Journal.NewJournalEntry | journal_entry.py:5-11 | title, content, date and file path are stored as passed; the word count is as above; the created time is `HH:MM`, reading back as the hour and minute of the clock reading |
| Journal.OmittedPathIsNone | journal_entry.py:5 | without a path argument, the file path is None |
| Text.StripEmptyIffBlank | entry_manager.py:33-40 | `strip()` is empty exactly when the text is all whitespace |
| Text.Strip | entry_manager.py:33 | the stripped text neither starts nor ends with whitespace |
| Text.Utf8 | secure_storage_manager.py:56 | `str.encode()` gives one to four bytes per character |
| Text.Utf8Char | secure_storage_manager.py:56 | one character encodes to one to four bytes, one byte exactly for ASCII |
| Text.Utf8RoundTrip | secure_storage_manager.py:56 | a strict UTF-8 decoder (`Utf8Decode`: lead byte, continuation bytes, shortest form, no surrogates) gives back exactly the encoded text, so the encoding is the standard one |
| Text.Utf8CharDecodes | secure_storage_manager.py:56 | each character's bytes carry the length its lead byte announces and decode back to that character |
| Text.Utf8Ascii | secure_storage_manager.py:56 | ASCII text encodes to one byte per character, with the same codes |
| Clock.CompactTimeRoundTrip | entry_manager.py:63 | `%H%M%S` reads back as hour, minute and second |
| Clock.FormatDateRoundTrip | entry_manager.py:56 | for a four-digit year, `%Y-%m-%d` is ten characters and reads back field by field |
| Clock.FormatHourMinute | journal_entry.py:11 | `%H:%M` is five characters with a colon in the middle, and its two digit pairs read back as the hour and the minute |
| Clock.IsoFormat | secure_storage_manager.py:68 | `isoformat()` is 19 characters, or 26 with a `.` at place 19 when there are microseconds, and has `-`, `-`, `T`, `:`, `:` at places 4, 7, 10, 13 and 16 |
| Clock.IsoFormatRoundTrip | secure_storage_manager.py:68 | every field reads back from its place in `isoformat()`: the year from four digits (always padded), then month, day, hour, minute, second and, when not zero, the microseconds |
| Clock.IsoDateIsFormatDate | entry_manager.py:74-75 | for a four-digit year the isoformat date is the `%Y-%m-%d` date |
| Clock.StrptimeDate | entry_manager.py:162 | `strptime(s, "%Y-%m-%d")` succeeds only for a valid date, read from four year digits and a `-` |
| Clock.MonthField | entry_manager.py:162 | `%m` reads a month from 1 to 12 in one or two characters, and the characters read are its digits |
| Clock.DayField | entry_manager.py:162 | `%d` reads a day from 1 to 31 in one or two characters |
| Clock.StrptimeFormatDate | entry_manager.py:162 | the `%Y-%m-%d` date a save records at line 74 parses back to that day, for four-digit years |
| Clock.DecimalBound | entry_manager.py:162 | a run of `n` digits is worth less than `10^n`, so four year digits give at most 9999 |
| Notebooks.NotebookContextDialog.constructor | notebook_context_dialog.py:10-15 | the dialog starts open, with no result action and the name field showing the current name |
| Notebooks.NotebookContextDialog.EditName | notebook_context_dialog.py:75 | typing changes only the name field |
| Notebooks.ExistingNotebooks | notebook_context_dialog.py:188-192 | a name is an existing notebook exactly when some folder starts with `notebooks/` and gives that name once every `notebooks/` is removed |
| Notebooks.CheckRename | notebook_context_dialog.py:169-201 | in order: a blank name is refused; the unchanged name rejects; "Default" is refused; a name among the existing notebooks is refused, but only when the listing succeeded; otherwise the rename goes ahead with the stripped name |
| Notebooks.RenameAccepted | notebook_context_dialog.py:169-201 | the rename goes ahead exactly when the stripped name is non-empty, differs from the current name, is not "Default", and is not taken (or the listing failed) |
| Notebooks.SaveChangesSetsActionOnlyOnRename | notebook_context_dialog.py:169-201 | saving never edits the name field; a blank name leaves the dialog unchanged; the only action save can set is a rename to the stripped name |
| Notebooks.MarkedNotebookIsTaken | notebook_context_dialog.py:187-195 | a notebook created through its folder marker is found by the duplicate check, once the check is given the listing |
| Notebooks.DuplicateAcceptedAsWritten | notebook_context_dialog.py:185-198 | as written, the listing is never obtained, so a rename to a taken notebook name is accepted; with the listing it is refused and nothing changes |
| Notebooks.ReplacePrefix | notebook_context_dialog.py:189 | replacing occurrences in a string that starts with the pattern turns that start into the replacement |
| Notebooks.NotebookContextDialog.SaveChanges | notebook_context_dialog.py:169-201 | the new dialog state is that of `SaveChangesStep` |
| Notebooks.NotebookContextDialog.ExportNotebook | notebook_context_dialog.py:203-205 | export always sets the export action and accepts the dialog |
| Notebooks.NotebookContextDialog.DeleteNotebook | notebook_context_dialog.py:207-224 | for "Default", or without confirmation, nothing changes; otherwise the delete action is set and the dialog accepted |
| Notebooks.InfoLabels | notebook_context_dialog.py:93-94 | Type and Status are "Default Notebook" and "Protected" exactly for "Default", and "Custom Notebook" and "Editable" otherwise |
| Passwords.CheckPassword | password_dialog.py:193-214 | an accepted password is the stripped input, non-empty; in create mode it is also at least 4 characters and equal to the stripped confirmation; in verify mode the only refusal is the empty password |
| Passwords.PasswordRefusals | password_dialog.py:195-211 | the empty-password refusal happens exactly for blank input; too-short and mismatch happen only in create mode, in that order; verify mode accepts exactly the non-blank input |
| Passwords.CreateAccepted | password_dialog.py:201-213 | create mode accepts exactly a non-blank input of at least 4 stripped characters that equals the stripped confirmation |
| Passwords.AcceptEffects | password_dialog.py:193-214 | accepting never edits the fields or the echo modes; blank input leaves the password and result unchanged; the stored password only ever becomes the stripped input, and only on acceptance |
| Passwords.SubtitleShowsAttempt | password_dialog.py:48-49 | in verify mode after the first attempt, the subtitle is "Incorrect password. Attempt {n} of 3" with the attempt number in decimal |
| Passwords.WarningImpliesErrorSubtitle | password_dialog.py:135 | whenever the deletion warning shows, the subtitle is the error one; the converse fails for a mode that is neither create nor verify |
| Passwords.PasswordDialog.constructor | password_dialog.py:10-53 | with the defaults `mode="verify"` and `attempts=1` when omitted, the dialog starts with an empty password, hidden echo on its fields, a confirm field only in create mode, and the subtitle and warning fixed by mode and attempts |
| Passwords.PasswordDialog.EditFields | password_dialog.py:195 | typing changes only the field texts |
| Passwords.PasswordDialog.AcceptPassword | password_dialog.py:193-214 | the new dialog state is that of `AcceptStep` |
| Passwords.PasswordDialog.TogglePasswordVisibility | password_dialog.py:182-191 | the password field echoes normally exactly when the box is checked; the confirm field follows it in create mode and is untouched otherwise |
| Settings.LoadedConfig | settings_manager.py:24-36 | the defaults are always present; keys in a loaded JSON object override them and add to them; a missing or unreadable file, or one that is not an object, leaves exactly the defaults |
| Settings.SettingsManager.constructor | settings_manager.py:22 | the manager starts with the loaded config |
| Settings.SettingsManager.LoadConfig | settings_manager.py:24-36 | the config becomes the file's config merged over the defaults |
| Settings.SettingsManager.SaveConfig | settings_manager.py:38-40 | the file then holds the config as an object, the config is unchanged, and loading the file again gives back exactly the config |
| Settings.SaveThenLoad | settings_manager.py:24-40 | a config holding every default key, once saved and loaded again, is unchanged |
| Settings.Increased | settings_manager.py:53 | a numeric font size becomes `min(24, old + 1)`; a value that is not numeric is refused |
| Settings.Decreased | settings_manager.py:59 | a numeric font size becomes `max(8, old - 1)`; a value that is not numeric is refused |
| Settings.FontBounds | settings_manager.py:53-59 | after an increase the size is at most 24, and after a decrease at least 8 |
| Settings.FontStaysInRange | settings_manager.py:53-59 | a size in [8, 24] stays in [8, 24] under either operation, and does not move at the bound it is pushed against |
| Settings.FontStep | settings_manager.py:53-59 | a font change rewrites only `font_size`, and fails when the key is missing or not numeric |
| Settings.FontStepChangesOnlyFontSize | settings_manager.py:53-59 | a font change keeps the set of keys, and every other key keeps its value |
| Settings.SettingsManager.IncreaseFontSize | settings_manager.py:52-56 | the config is that of `FontStep` with `Increased`, and is saved; the step succeeds exactly when `font_size` holds a number, and otherwise nothing changes; every default key stays present |
| Settings.SettingsManager.DecreaseFontSize | settings_manager.py:58-62 | the config is that of `FontStep` with `Decreased`, and is saved; the step succeeds exactly when `font_size` holds a number, and otherwise nothing changes; every default key stays present |
| Settings.SettingsManager.ToggleWordWrap | settings_manager.py:64-68 | `word_wrap` becomes the checked state, every other key keeps its value, and the config is saved |

## Left out

- Fernet, SHA-256 and JSON are a `Codec` of uninterpreted functions. No cryptography or JSON syntax is modelled. Because only 16 hex digits of the hash are kept, two paths can share a secure name. The model allows that and does not assume it away.
- Filesystem errors other than a name taken by a directory are left out, because the directory is a map. Examples are permissions and a full disk. A write onto a subdirectory name is the one modelled failure.
- `_load_index` returning a JSON value that is not a dict is not modelled. The decoded index is always a list of pairs.
- `datetime.now()` is read four times by `save_entry` (lines 56, 63, 74 and 75) and twice by `create_virtual_folder` (line 138, then line 68 inside `store_file`). The model uses one reading per call.
- `total_size_mb` is left out; it is float rounding.
- `str.isalnum` is approximated by ASCII letters and digits. Unicode categories are not modelled.
- Entries.EntryManager.SaveEntry: does not model the `load_recent_entries` refresh that follows a save (entry_manager.py:89). Its 30-day directory scan is file I/O, so in the model the entries list is unchanged after a save.
- Entries.SaveEffects: states that the entries list is unchanged by a save; that holds for the model only, since the refresh above is left out.
- Entries.NewEntryClears: the same holds for its unchanged entries list after a Yes save.
- Entries.SelectInRange: indexes the entries list as it stood before the Yes save; the program indexes the refreshed list.
- Entries.SelectOutOfRange: checks the index against the entries list as it stood before the Yes save and keeps that list; the program rebuilds the list after a successful save and checks the index against the rebuilt one.
- `delete_entry`, `export_journal` and `load_recent_entries` of entry_manager.py are left out. They were not part of the modelled core.
- `os.makedirs` creates only the date folder in `Disk`. Its missing ancestors are not tracked.
- The date label's `%B %d, %Y` text is left out, because it is display only. The `strptime` before it is modelled, since its `ValueError` keeps the unsaved flag set. The same goes for the status bar, focus, `selectAll` and message boxes.
- Clock.StrptimeDate: matches ASCII digits only. Python's `\d` also accepts other Unicode decimal digits.
- Entries.EntryManager.LoadSelectedEntry: models the `ValueError` as the result `raised`. What Qt does with the exception that escapes the slot is not modelled. The title field raises the unsaved flag only when its text changes; the editor's `setPlainText` raises it always, so the flag is on either way.
- `show_error` and `get_password` are left out; they are presentation and a plain getter.
- Clock.FormatDate: does not pad years below 1000. The round-trip lemma covers four-digit years only.
- Python floats in the config are exact reals. Float rounding is not modelled.
- `dict.update` with a JSON list of pairs is treated as not an object, so the defaults stand.
- Settings.SettingsManager.IncreaseFontSize: the `TypeError` Python raises on a non-numeric `font_size` is modelled as the result `false` with nothing changed. The `KeyError` for a missing key cannot arise, because the manager keeps every default key. The same holds for DecreaseFontSize.
- `load_or_create_key` and the window and path setup of `setup_settings` are left out. They are file I/O and Qt calls.
- The `notebook_stats` values shown in the dialog are left out; they are display only.
- The Qt widgets, the styles and every file outside the six named ones are left out. That includes the auto-save thread, the notebook manager, the security manager and the older `main.py`.

## Findings

| source | as written | input that shows it | evidently intended | confidence | as-written member | corrected member |
|---|---|---|---|---|---|---|
| notebook_context_dialog.py:186-198 | the duplicate-name check reads `self.parent.entry_manager.secure_storage`, an attribute no class defines; the `AttributeError` falls into `except Exception`, so the check never runs | rename a notebook to the name of another notebook whose `notebooks/<name>/.folder_marker` is in the storage: the rename is accepted | a rename to a taken notebook name is refused with "Duplicate Name" | not executed; medium, since code outside the repository could set the attribute | Notebooks.DuplicateAcceptedAsWritten | Notebooks.MarkedNotebookIsTaken |

The notebook dialog's `SaveChanges` takes the folder listing as a parameter, which is the corrected behaviour; `ListingAsWritten` is what the code as written supplies.
